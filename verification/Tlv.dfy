/** TLV metadata blocks, padded to 8 bytes. */
module Tlv {
  import opened Bytes
  import opened Io
  import opened Flags

  datatype Tlv = Tlv(typeId: byte, value: seq<byte>)

  /** `classify_type`, with the recovery range as the FEC module classifies it. */
  function Classify(id: byte): Check {
    if id == 0 then Err(ReservedValue)
    else if 0x10 <= id <= 0x1F then
      if id == 0x11 || id == 0x14 then Ok(())
      else if id == 0x10 || id >= 0x17 then Err(ReservedValue)
      else Err(Unsupported)
    else if 0x20 <= id <= 0x2F then Err(Unsupported)
    else if 0x42 <= id <= 0x4E || id >= 0x50 then Err(ReservedValue)
    else Ok(())
  }

  function Padding(n: nat): (p: nat)
    ensures p < 8 && (n + p) % 8 == 0
  {
    (8 - n % 8) % 8
  }

  /** `encoded_len`. */
  function EncodedLen(t: Tlv): (n: nat)
    ensures n % 8 == 0 && n >= 8
  {
    var base := 1 + 4 + |t.value|;
    base + Padding(base)
  }

  function Put(t: Tlv): (s: seq<byte>)
    ensures |s| == EncodedLen(t)
  {
    LE(t.typeId, 1) + (LE(|t.value|, 4) + (t.value + Zeros(Padding(5 + |t.value|))))
  }

  function CheckPrintable(t: Tlv): Check {
    var _ :- Classify(t.typeId);
    if |t.value| > U32_MAX then Err(Overflow) else if |t.value| == U32_MAX then Err(ReservedValue) else Ok(())
  }

  /** `write_tlvs`. */
  function Print(ts: seq<Tlv>): Result<seq<byte>, SarError> {
    if ts == [] then Ok([])
    else
      var _ :- CheckPrintable(ts[0]);
      var rest :- Print(ts[1..]);
      Ok(Put(ts[0]) + rest)
  }

  function TakeOne(s: seq<byte>, lim: Limits): (r: Parse<Tlv>)
    ensures r.Ok? ==> |r.value.1| < |s|
  {
    Widths();
    var (id, s1) :- TakeInt(1, s);
    var _ :- Classify(id);
    var (n, s2) :- TakeInt(4, s1);
    if n == U32_MAX then Err(ReservedValue)
    else if n > lim.maxTlv then Err(LimitExceeded)
    else
      var (value, s3) :- Take(n, s2);
      var (pad, s4) :- Take(Padding(5 + n), s3);
      if pad != Zeros(|pad|) then Err(InvalidAlignment) else Ok((Tlv(id, value), s4))
  }

  /** `parse_tlvs`, with `count` blocks read before. */
  function ParseAll(s: seq<byte>, count: nat, lim: Limits): Result<seq<Tlv>, SarError>
    decreases |s|
  {
    hide TakeOne;
    if s == [] then Ok([])
    else if count + 1 > lim.maxTlvCount then Err(LimitExceeded)
    else
      var (t, rest) :- TakeOne(s, lim);
      var ts :- ParseAll(rest, count + 1, lim);
      Ok([t] + ts)
  }

  // ---------------------------------------------------------------------
  // The encoding is canonical
  // ---------------------------------------------------------------------

  lemma OneThere(t: Tlv, rest: seq<byte>, lim: Limits)
    requires CheckPrintable(t).Ok? && |t.value| <= lim.maxTlv
    ensures TakeOne(Put(t) + rest, lim) == Ok((t, rest))
  {
    hide LE, TakeInt, Classify, Take;
    Widths();
    var pad := Zeros(Padding(5 + |t.value|));
    IntThere(1, t.typeId, LE(|t.value|, 4) + (t.value + (pad + rest)));
    IntThere(4, |t.value|, t.value + (pad + rest));
    TakeAppended(|t.value|, t.value, pad + rest);
    TakeAppended(|pad|, pad, rest);
    Assoc4(LE(t.typeId, 1), LE(|t.value|, 4), t.value, pad, rest);
  }

  lemma OneBack(s: seq<byte>, lim: Limits)
    requires TakeOne(s, lim).Ok?
    ensures var (t, rest) := TakeOne(s, lim).value; CheckPrintable(t).Ok? && s == Put(t) + rest
  {
    hide LE, TakeInt, Classify, Take;
    Widths();
    var (t, rest) := TakeOne(s, lim).value;
    IntBack(1, s);
    var s1 := TakeInt(1, s).value.1;
    IntBack(4, s1);
    var (n, s2) := TakeInt(4, s1).value;
    TakeSplits(n, s2);
    var s3 := Take(n, s2).value.1;
    TakeSplits(Padding(5 + n), s3);
    Assoc4(LE(t.typeId, 1), LE(|t.value|, 4), t.value, Zeros(Padding(5 + |t.value|)), rest);
  }

  /** Reading inverts writing on values within the limits. */
  lemma {:induction false} ParsePrint(ts: seq<Tlv>, count: nat, lim: Limits)
    requires Print(ts).Ok? && count + |ts| <= lim.maxTlvCount
    requires forall i :: 0 <= i < |ts| ==> |ts[i].value| <= lim.maxTlv
    ensures ParseAll(Print(ts).value, count, lim) == Ok(ts)
  {
    hide TakeOne, Put, CheckPrintable;
    if ts != [] {
      var rest := Print(ts[1..]).value;
      OneThere(ts[0], rest, lim);
      ParsePrint(ts[1..], count + 1, lim);
      assert ts == [ts[0]] + ts[1..];
    }
  }

  /** Writing inverts reading: accepted bytes are printed back exactly. */
  lemma {:induction false} PrintParse(s: seq<byte>, count: nat, lim: Limits)
    requires ParseAll(s, count, lim).Ok?
    ensures Print(ParseAll(s, count, lim).value) == Ok(s)
    decreases |s|
  {
    hide TakeOne, Put, CheckPrintable;
    if s != [] {
      OneBack(s, lim);
      var (t, rest) := TakeOne(s, lim).value;
      PrintParse(rest, count + 1, lim);
      var ts := ParseAll(rest, count + 1, lim).value;
      assert ([t] + ts)[1..] == ts;
    }
  }

  function TotalLen(ts: seq<Tlv>): nat {
    if ts == [] then 0 else EncodedLen(ts[0]) + TotalLen(ts[1..])
  }

  /** The output length is the sum of the encoded lengths, a multiple of 8. */
  lemma {:induction false} PrintLength(ts: seq<Tlv>)
    requires Print(ts).Ok?
    ensures |Print(ts).value| == TotalLen(ts) && TotalLen(ts) % 8 == 0
  {
    hide Put, CheckPrintable, EncodedLen;
    if ts != [] { PrintLength(ts[1..]); }
  }

  // ---------------------------------------------------------------------
  // The imperative forms
  // ---------------------------------------------------------------------

  method ReadOne(c: ParseCursor, lim: Limits) returns (r: Result<Tlv, SarError>)
    requires c.Valid()
    modifies c
    ensures c.Valid() && Agrees(r, c.Rest(), TakeOne(old(c.Rest()), lim))
  {
    hide TakeInt, Take, Classify;
    Widths();
    ghost var s := c.Rest();
    var start := c.pos;
    var id :- c.ReadInt(1);
    var _ :- Classify(id);
    var n :- c.ReadInt(4);
    if n == U32_MAX { return Err(ReservedValue); }
    if n > lim.maxTlv { return Err(LimitExceeded); }
    var value :- c.ReadBytes(n);
    assert c.pos - start == 5 + n by { Consumed(s, lim, n); }
    var rem := (c.pos - start) % 8;
    var pad := if rem == 0 then 0 else 8 - rem;
    var padding :- c.ReadBytes(pad);
    if padding != Zeros(|padding|) { return Err(InvalidAlignment); }
    return Ok(Tlv(id, value));
  }

  lemma Consumed(s: seq<byte>, lim: Limits, n: nat)
    requires TakeInt(1, s).Ok? && TakeInt(4, TakeInt(1, s).value.1).Ok?
    requires n == TakeInt(4, TakeInt(1, s).value.1).value.0 && Take(n, TakeInt(4, TakeInt(1, s).value.1).value.1).Ok?
    ensures |Take(n, TakeInt(4, TakeInt(1, s).value.1).value.1).value.1| == |s| - 5 - n
  {
  }

  /** `parse_tlvs`. */
  method ParseTlvs(input: seq<byte>, lim: Limits) returns (r: Result<seq<Tlv>, SarError>)
    ensures r == ParseAll(input, 0, lim)
  {
    hide TakeOne, ParseAll, ParseCursor.Valid, ParseCursor.Rest;
    var c := new ParseCursor(input);
    var out: seq<Tlv> := [];
    ghost var whole := ParseAll(input, 0, lim);
    PrependNone(whole);
    while true
      invariant c.Valid() && fresh(c)
      invariant whole == PrependAll(out, ParseAll(c.Rest(), |out|, lim))
      decreases |c.Rest()|
    {
      ParseAllUnfold(c.Rest(), |out|, lim);
      if |c.input| - c.pos == 0 { break; }
      if |out| + 1 > lim.maxTlvCount { return Err(LimitExceeded); }
      var t :- ReadOne(c, lim);
      PrependOne(out, t, ParseAll(c.Rest(), |out| + 1, lim));
      out := out + [t];
    }
    assert out + [] == out;
    return Ok(out);
  }

  function PrependAll(ts: seq<Tlv>, r: Result<seq<Tlv>, SarError>): Result<seq<Tlv>, SarError> {
    if r.Ok? then Ok(ts + r.value) else r
  }

  lemma PrependNone(r: Result<seq<Tlv>, SarError>)
    ensures PrependAll([], r) == r
  {
    if r.Ok? { assert [] + r.value == r.value; }
  }

  lemma PrependOne(ts: seq<Tlv>, t: Tlv, r: Result<seq<Tlv>, SarError>)
    ensures PrependAll(ts, PrependAll([t], r)) == PrependAll(ts + [t], r)
  {
    if r.Ok? { assert ts + ([t] + r.value) == ts + [t] + r.value; }
  }

  lemma ParseAllUnfold(s: seq<byte>, count: nat, lim: Limits)
    ensures ParseAll(s, count, lim) ==
      if s == [] then Ok([])
      else if count + 1 > lim.maxTlvCount then Err(LimitExceeded)
      else match TakeOne(s, lim)
        case Ok((t, rest)) => PrependAll([t], ParseAll(rest, count + 1, lim))
        case Err(e) => Err(e)
  {
    hide TakeOne;
  }

  /** `write_tlvs`. */
  method WriteTlvs(ts: seq<Tlv>) returns (r: Result<seq<byte>, SarError>)
    ensures r == Print(ts)
  {
    hide Classify, Print, LE;
    var out: seq<byte> := [];
    assert ts[0..] == ts;
    JoinNone(Print(ts));
    for i := 0 to |ts|
      invariant Print(ts) == Join(out, Print(ts[i..]))
    {
      PrintUnfold(ts[i..]);
      var t := ts[i];
      var _ :- Classify(t.typeId);
      if |t.value| > U32_MAX { return Err(Overflow); }
      if |t.value| == U32_MAX { return Err(ReservedValue); }
      var block := LE(t.typeId, 1) + LE(|t.value|, 4) + t.value;
      var pad := (8 - |block| % 8) % 8;
      block := block + Zeros(pad);
      assert block == Put(t) by { Regroup(LE(t.typeId, 1), LE(|t.value|, 4), t.value, Zeros(pad)); }
      assert ts[i..][1..] == ts[i + 1..];
      JoinJoin(out, block, Print(ts[i + 1..]));
      out := out + block;
    }
    PrintUnfold(ts[|ts|..]);
    assert out + [] == out;
    return Ok(out);
  }

  lemma Regroup(a: seq<byte>, b: seq<byte>, c: seq<byte>, d: seq<byte>)
    ensures a + b + c + d == a + (b + (c + d))
  {
    Assoc(a + b, c, d);
    Assoc(a, b, c + d);
  }

  function Join(s: seq<byte>, r: Result<seq<byte>, SarError>): Result<seq<byte>, SarError> {
    if r.Ok? then Ok(s + r.value) else r
  }

  lemma JoinNone(r: Result<seq<byte>, SarError>)
    ensures Join([], r) == r
  {
    if r.Ok? { assert [] + r.value == r.value; }
  }

  lemma JoinJoin(a: seq<byte>, b: seq<byte>, r: Result<seq<byte>, SarError>)
    ensures Join(a, Join(b, r)) == Join(a + b, r)
  {
    if r.Ok? { Assoc(a, b, r.value); }
  }

  lemma PrintUnfold(ts: seq<Tlv>)
    ensures Print(ts) ==
      if ts == [] then Ok([])
      else match CheckPrintable(ts[0])
        case Ok(_) => Join(Put(ts[0]), Print(ts[1..]))
        case Err(e) => Err(e)
  {
    hide CheckPrintable, Put;
  }
}
