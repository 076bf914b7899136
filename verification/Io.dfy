/** Checked cursors and writers over little-endian fields, and the field codecs built on them. */
module Io {
  import opened Bytes

  // ---------------------------------------------------------------------
  // Fields
  // ---------------------------------------------------------------------

  function Take(n: nat, s: seq<byte>): Parse<seq<byte>> {
    if n > |s| then Err(Truncated) else Ok((s[..n], s[n..]))
  }

  function TakeInt(w: nat, s: seq<byte>): (r: Parse<nat>)
    ensures r.Ok? ==> r.value.0 < Pow256(w)
  {
    if w > |s| then Err(Truncated) else Ok((FromLE(s[..w]), s[w..]))
  }

  /** An integer field that a flag switches on; an absent value is written as zero. */
  function OptInt(on: bool, w: nat, v: Option<nat>): (s: seq<byte>)
    ensures |s| == if on then w else 0
  {
    if on then LE(v.GetOr(0), w) else []
  }

  function TakeOptInt(on: bool, w: nat, s: seq<byte>): (r: Parse<Option<nat>>)
    ensures r.Ok? ==> (r.value.0.Some? <==> on) && (on ==> r.value.0.value < Pow256(w))
  {
    if on then var (v, t) :- TakeInt(w, s); Ok((Some(v), t)) else Ok((None, s))
  }

  function NormInt(on: bool, v: Option<nat>): Option<nat> {
    if on then Some(v.GetOr(0)) else None
  }

  /** A fixed-width byte field that a flag switches on; an absent value is written as zeros. */
  function OptRaw(on: bool, w: nat, v: Option<seq<byte>>): (s: seq<byte>)
    requires v.Some? ==> |v.value| == w
    ensures |s| == if on then w else 0
  {
    if on then v.GetOr(Zeros(w)) else []
  }

  function TakeOptRaw(on: bool, w: nat, s: seq<byte>): (r: Parse<Option<seq<byte>>>)
    ensures r.Ok? ==> (r.value.0.Some? <==> on) && (on ==> |r.value.0.value| == w)
  {
    if on then var (v, t) :- Take(w, s); Ok((Some(v), t)) else Ok((None, s))
  }

  function NormRaw(on: bool, w: nat, v: Option<seq<byte>>): Option<seq<byte>> {
    if on then Some(v.GetOr(Zeros(w))) else None
  }

  // Regrouping a printed record and what follows it.

  lemma Assoc(a: seq<byte>, b: seq<byte>, c: seq<byte>)
    ensures (a + b) + c == a + (b + c)
  {
  }

  lemma Assoc4(a: seq<byte>, b: seq<byte>, c: seq<byte>, d: seq<byte>, t: seq<byte>)
    ensures (a + (b + (c + d))) + t == a + (b + (c + (d + t)))
  {
    Assoc(a, b + (c + d), t);
    Assoc(b, c + d, t);
    Assoc(c, d, t);
  }

  lemma Assoc5(a: seq<byte>, b: seq<byte>, c: seq<byte>, d: seq<byte>, e: seq<byte>, t: seq<byte>)
    ensures (a + (b + (c + (d + e)))) + t == a + (b + (c + (d + (e + t))))
  {
    Assoc(a, b + (c + (d + e)), t);
    Assoc4(b, c, d, e, t);
  }

  lemma Append4(p: seq<byte>, a: seq<byte>, b: seq<byte>, c: seq<byte>, d: seq<byte>)
    ensures p + a + b + c + d == p + (a + (b + (c + d)))
  {
    Assoc(p + a + b, c, d);
    Assoc(p + a, b, c + d);
    Assoc(p, a, b + (c + d));
  }

  lemma Append5(p: seq<byte>, a: seq<byte>, b: seq<byte>, c: seq<byte>, d: seq<byte>, e: seq<byte>)
    ensures p + a + b + c + d + e == p + (a + (b + (c + (d + e))))
  {
    Append4(p + a, b, c, d, e);
    Assoc(p, a, b + (c + (d + e)));
  }

  // Reading inverts writing, whatever follows; writing inverts reading.

  lemma TakeAppended(n: nat, a: seq<byte>, b: seq<byte>)
    requires n == |a|
    ensures Take(n, a + b) == Ok((a, b))
  {
    assert (a + b)[..n] == a && (a + b)[n..] == b;
  }

  lemma TakeSplits(n: nat, s: seq<byte>)
    requires Take(n, s).Ok?
    ensures s == Take(n, s).value.0 + Take(n, s).value.1 && |Take(n, s).value.0| == n
  {
  }

  lemma IntThere(w: nat, v: nat, t: seq<byte>)
    requires v < Pow256(w)
    ensures TakeInt(w, LE(v, w) + t) == Ok((v, t))
  {
    hide LE, FromLE, Pow256;
    LERoundTrip(v, w);
    assert (LE(v, w) + t)[..w] == LE(v, w) && (LE(v, w) + t)[w..] == t;
  }

  lemma IntBack(w: nat, s: seq<byte>)
    requires TakeInt(w, s).Ok?
    ensures s == LE(TakeInt(w, s).value.0, w) + TakeInt(w, s).value.1
  {
    hide LE, FromLE, Pow256;
    FromLERoundTrip(s[..w]);
    assert |s[..w]| == w;
  }

  lemma OptIntThere(on: bool, w: nat, v: Option<nat>, t: seq<byte>)
    requires v.Some? ==> v.value < Pow256(w)
    ensures TakeOptInt(on, w, OptInt(on, w, v) + t) == Ok((NormInt(on, v), t))
  {
    hide LE, FromLE, TakeInt;
    if on { IntThere(w, v.GetOr(0), t); } else { assert [] + t == t; }
  }

  lemma OptIntBack(on: bool, w: nat, s: seq<byte>)
    requires TakeOptInt(on, w, s).Ok?
    ensures s == OptInt(on, w, TakeOptInt(on, w, s).value.0) + TakeOptInt(on, w, s).value.1
  {
    hide LE, FromLE, TakeInt;
    if on { IntBack(w, s); } else { assert [] + s == s; }
  }

  lemma OptRawThere(on: bool, w: nat, v: Option<seq<byte>>, t: seq<byte>)
    requires v.Some? ==> |v.value| == w
    ensures TakeOptRaw(on, w, OptRaw(on, w, v) + t) == Ok((NormRaw(on, w, v), t))
  {
    if on { TakeAppended(w, v.GetOr(Zeros(w)), t); } else { assert [] + t == t; }
  }

  lemma OptRawBack(on: bool, w: nat, s: seq<byte>)
    requires TakeOptRaw(on, w, s).Ok?
    ensures s == OptRaw(on, w, TakeOptRaw(on, w, s).value.0) + TakeOptRaw(on, w, s).value.1
  {
    if on { TakeSplits(w, s); } else { assert [] + s == s; }
  }

  // ---------------------------------------------------------------------
  // The cursor and the writer
  // ---------------------------------------------------------------------

  class ParseCursor {
    const input: seq<byte>
    var pos: nat

    constructor (input: seq<byte>)
      ensures Valid() && this.input == input && Rest() == input && pos == 0
    {
      this.input := input;
      pos := 0;
    }

    ghost predicate Valid()
      reads this
    {
      pos <= |input|
    }

    function Rest(): (s: seq<byte>)
      reads this
      requires Valid()
      ensures |s| == |input| - pos
    {
      input[pos..]
    }

    method ReadBytes(n: nat) returns (r: Result<seq<byte>, SarError>)
      requires Valid()
      modifies this
      ensures Valid() && Agrees(r, Rest(), Take(n, old(Rest())))
    {
      var end := pos + n;
      if end > |input| { return Err(Truncated); }
      assert input[pos..][..n] == input[pos..end] && input[pos..][n..] == input[end..];
      r := Ok(input[pos..end]);
      pos := end;
    }

    /** `read_u8`, `read_u16_le`, `read_u24_le`, `read_u32_le` and `read_u64_le`, by width. */
    method ReadInt(w: nat) returns (r: Result<nat, SarError>)
      requires Valid()
      modifies this
      ensures Valid() && Agrees(r, Rest(), TakeInt(w, old(Rest())))
    {
      hide FromLE, Pow256;
      var bytes :- ReadBytes(w);
      r := Ok(FromLE(bytes));
    }

    method ReadOptInt(on: bool, w: nat) returns (r: Result<Option<nat>, SarError>)
      requires Valid()
      modifies this
      ensures Valid() && Agrees(r, Rest(), TakeOptInt(on, w, old(Rest())))
    {
      hide TakeInt;
      if !on { return Ok(None); }
      var v :- ReadInt(w);
      r := Ok(Some(v));
    }

    method ReadOptRaw(on: bool, w: nat) returns (r: Result<Option<seq<byte>>, SarError>)
      requires Valid()
      modifies this
      ensures Valid() && Agrees(r, Rest(), TakeOptRaw(on, w, old(Rest())))
    {
      if !on { return Ok(None); }
      var v :- ReadBytes(w);
      r := Ok(Some(v));
    }
  }

  class BinaryWriter {
    var buf: seq<byte>

    constructor ()
      ensures buf == []
    {
      buf := [];
    }

    method WriteBytes(bytes: seq<byte>)
      modifies this
      ensures buf == old(buf) + bytes
    {
      buf := buf + bytes;
    }

    /** `write_u8`, `write_u16_le`, `write_u32_le` and `write_u64_le`, by width. */
    method WriteInt(v: nat, w: nat)
      modifies this
      ensures buf == old(buf) + LE(v, w)
    {
      buf := buf + LE(v, w);
    }

    method WriteOptInt(on: bool, w: nat, v: Option<nat>)
      modifies this
      ensures buf == old(buf) + OptInt(on, w, v)
    {
      if on { WriteInt(v.GetOr(0), w); }
    }

    method WriteOptRaw(on: bool, w: nat, v: Option<seq<byte>>)
      requires v.Some? ==> |v.value| == w
      modifies this
      ensures buf == old(buf) + OptRaw(on, w, v)
    {
      if on { WriteBytes(v.GetOr(Zeros(w))); }
    }
  }
}
