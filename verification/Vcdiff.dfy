/** VCDIFF patch streams (RFC 3284): header, windows, and the ADD-only generator. */
module Vcdiff {
  import opened Bytes
  import opened Varint
  import opened CodeTable
  import opened VcdiffWindow

  datatype Limits = Limits(maxPatch: nat, maxWindows: nat, maxInstructions: nat, maxOutput: nat)

  const STREAM_HEADER: seq<byte> := [0xD6, 0xC3, 0xC4, 0x00]
  const VCD_SOURCE: byte := 1

  // ---------------------------------------------------------------------
  // What a stream means
  // ---------------------------------------------------------------------

  /** The source segment that a window indicator selects. */
  function TakeSegment(win: byte, base: seq<byte>, prev: seq<byte>, s: seq<byte>): (r: Parse<seq<byte>>)
    ensures r.Ok? ==> |r.value.1| <= |s|
  {
    if win == 0 then Ok(([], s))
    else
      var (size, s1) :- TakeVarint(s);
      var (pos, s2) :- TakeVarint(s1);
      var from := if win == VCD_SOURCE then base else prev;
      if pos + size <= |from| then Ok((from[pos..pos + size], s2)) else Err(PatchFailed)
  }

  /** The lengths and sections of a delta encoding. */
  datatype Delta = Delta(target: nat, data: seq<byte>, inst: seq<byte>, addr: seq<byte>)

  function TakeSections(target: nat, s: seq<byte>): (r: Parse<Delta>)
    ensures r.Ok? ==> |r.value.1| <= |s|
  {
    var (nData, s1) :- TakeVarint(s);
    var (nInst, s2) :- TakeVarint(s1);
    var (nAddr, s3) :- TakeVarint(s2);
    var (data, s4) :- TakeBytes(s3, nData);
    var (inst, s5) :- TakeBytes(s4, nInst);
    var (addr, s6) :- TakeBytes(s5, nAddr);
    Ok((Delta(target, data, inst, addr), s6))
  }

  function TakeDelta(done: nat, s: seq<byte>, lim: Limits): (r: Parse<Delta>)
    ensures r.Ok? ==>
      && |r.value.1| <= |s| && done + r.value.0.target <= U64_MAX && done + r.value.0.target <= lim.maxOutput
  {
    var (length, body) :- TakeVarint(s);
    if length > |body| then Err(PatchFailed)
    else
      var (target, s1) :- TakeVarint(body);
      if done + target > U64_MAX then Err(PatchFailed)
      else if done + target > lim.maxOutput then Err(LimitExceeded)
      else
        var (indicator, s2) :- TakeByte(s1);
        if indicator % 8 != 0 then Err(Unsupported)
        else
          var (delta, rest) :- TakeSections(target, s2);
          if |body| - |rest| == length then Ok((delta, rest)) else Err(PatchFailed)
  }

  /** One window: the bytes it appends and the stream behind it. */
  function TakeWindow(base: seq<byte>, prev: seq<byte>, s: seq<byte>, lim: Limits): (r: Parse<seq<byte>>)
    ensures r.Ok? ==> |r.value.1| < |s|
  {
    hide Window, TakeSegment, TakeDelta;
    var (win, s1) :- TakeByte(s);
    if win > 2 then Err(PatchFailed)
    else
      var (source, s2) :- TakeSegment(win, base, prev, s1);
      var (d, rest) :- TakeDelta(|prev|, s2, lim);
      var out :- Window(Input(source, prev), d.target, lim.maxInstructions, Start(d.data, d.inst, d.addr), []);
      Ok((out, rest))
  }

  /** What a window is decoded against and its delta encoding, as its bytes say. */
  function TakeParts(base: seq<byte>, prev: seq<byte>, s: seq<byte>, lim: Limits): Parse<(Input, Delta)> {
    hide TakeSegment, TakeDelta;
    var (win, s1) :- TakeByte(s);
    var (source, s2) :- TakeSegment(win, base, prev, s1);
    var (d, rest) :- TakeDelta(|prev|, s2, lim);
    Ok(((Input(source, prev), d), rest))
  }

  /** The instructions that a window's bytes encode. */
  function OpsIn(x: Input, d: Delta, lim: Limits): seq<Op> {
    Ops(x, d.target, lim.maxInstructions, Start(d.data, d.inst, d.addr), [])
  }

  /**
   Every accepted window of a patch has the declared length and is the only one that follows the
   instructions in its bytes; it obeys them if and only if they stay in reach, which they do while
   the earlier output is no longer than the source segment.
   */
  lemma TakeWindowSemantics(base: seq<byte>, prev: seq<byte>, s: seq<byte>, lim: Limits)
    requires TakeWindow(base, prev, s, lim).Ok?
    ensures TakeParts(base, prev, s, lim).Ok?
    ensures var ((x, d), rest) := TakeParts(base, prev, s, lim).value;
      var (out, rest') := TakeWindow(base, prev, s, lim).value;
      var ops := OpsIn(x, d, lim);
      && rest' == rest && |out| == d.target && d.data == DataOf(ops)
      && Follows(x, out, 0, ops) && (forall w :: Follows(x, w, 0, ops) ==> w == out)
      && (Obeys(x.source + out, |x.source|, ops) <==> InReach(x, ops))
      && (|x.prev| <= |x.source| ==> InReach(x, ops))
  {
    hide Window, TakeSegment, TakeDelta, Follows, Obeys, InReach, Ops, DataOf;
    var ((x, d), _) := TakeParts(base, prev, s, lim).value;
    WindowSemantics(x, d.target, lim.maxInstructions, d.data, d.inst, d.addr);
  }

  /** No window of the stream copies from behind the wrap. */
  predicate AllInReach(base: seq<byte>, prev: seq<byte>, s: seq<byte>, lim: Limits)
    decreases |s|
  {
    hide TakeWindow, TakeParts, OpsIn, InReach;
    var w := TakeWindow(base, prev, s, lim);
    w.Ok? && TakeParts(base, prev, s, lim).Ok? ==>
      var ((x, d), _) := TakeParts(base, prev, s, lim).value;
      InReach(x, OpsIn(x, d, lim)) && AllInReach(base, prev + w.value.0, w.value.1, lim)
  }

  /** The output `out` is cut into windows that obey their instructions, one behind the other. */
  ghost predicate AllObey(base: seq<byte>, prev: seq<byte>, s: seq<byte>, lim: Limits, out: seq<byte>)
    decreases |s|
  {
    hide TakeWindow, TakeParts, OpsIn, Obeys;
    if s == [] then out == prev
    else
      var w := TakeWindow(base, prev, s, lim);
      && w.Ok? && TakeParts(base, prev, s, lim).Ok?
      && var ((x, d), _) := TakeParts(base, prev, s, lim).value;
         && Obeys(x.source + w.value.0, |x.source|, OpsIn(x, d, lim))
         && AllObey(base, prev + w.value.0, w.value.1, lim, out)
  }

  /** An accepted stream is a concatenation of windows that obey their instructions iff all of them stay in reach. */
  lemma {:induction false} WindowsSemantics(base: seq<byte>, prev: seq<byte>, s: seq<byte>, budget: nat, lim: Limits)
    requires Windows(base, prev, s, budget, lim).Ok?
    ensures AllObey(base, prev, s, lim, Windows(base, prev, s, budget, lim).value) <==> AllInReach(base, prev, s, lim)
    decreases |s|
  {
    hide TakeWindow, TakeParts, OpsIn, InReach, Obeys, Follows, DataOf, Windows;
    WindowsUnfold(base, prev, s, budget, lim);
    if s != [] {
      TakeWindowSemantics(base, prev, s, lim);
      var (out, rest) := TakeWindow(base, prev, s, lim).value;
      WindowsSemantics(base, prev + out, rest, budget - 1, lim);
    } else {
      NothingTaken(base, prev, lim);
    }
  }

  lemma NothingTaken(base: seq<byte>, prev: seq<byte>, lim: Limits)
    ensures TakeWindow(base, prev, [], lim).Err?
  {
    hide Window, TakeSegment, TakeDelta;
  }

  function Windows(base: seq<byte>, prev: seq<byte>, s: seq<byte>, budget: nat, lim: Limits): Result<seq<byte>, SarError>
    decreases |s|
  {
    hide TakeWindow;
    if s == [] then Ok(prev)
    else if budget == 0 then Err(LimitExceeded)
    else
      var (out, rest) :- TakeWindow(base, prev, s, lim);
      if |prev + out| > lim.maxOutput then Err(LimitExceeded)
      else Windows(base, prev + out, rest, budget - 1, lim)
  }

  function TakeHeader(s: seq<byte>): Parse<()> {
    var (magic, s1) :- TakeBytes(s, 4);
    if magic != STREAM_HEADER then Err(PatchFailed)
    else
      var (indicator, s2) :- TakeByte(s1);
      var (compressor, s3) :- if indicator % 2 == 1 then TakeByte(s2) else Ok((0, s2));
      if compressor != 0 then Err(Unsupported)
      else if indicator / 2 % 2 == 1 then Err(PatchFailed)
      else Ok(((), s3))
  }

  function Meaning(base: seq<byte>, patch: seq<byte>, expected: nat, lim: Limits): Result<seq<byte>, SarError> {
    if |patch| > lim.maxPatch then Err(LimitExceeded)
    else
      var (_, s) :- TakeHeader(patch);
      var out :- Windows(base, [], s, lim.maxWindows, lim);
      if |out| == expected then Ok(out) else Err(PatchFailed)
  }

  // ---------------------------------------------------------------------
  // The applier
  // ---------------------------------------------------------------------

  method ReadSegment(win: byte, base: seq<byte>, prev: seq<byte>, reader: ByteReader)
    returns (r: Result<seq<byte>, SarError>)
    requires reader.Valid() && win <= 2
    modifies reader
    ensures reader.Valid() && Agrees(r, reader.Rest(), TakeSegment(win, base, prev, old(reader.Rest())))
  {
    hide TakeVarint;
    if win == 0 { return Ok([]); }
    var size :- reader.ReadVarint();
    var pos :- reader.ReadVarint();
    if win == VCD_SOURCE {
      if pos + size > |base| { return Err(PatchFailed); }
      return Ok(base[pos..pos + size]);
    } else {
      if pos + size > |prev| { return Err(PatchFailed); }
      return Ok(prev[pos..pos + size]);
    }
  }

  method ReadSections(target: nat, reader: ByteReader) returns (r: Result<Delta, SarError>)
    requires reader.Valid()
    modifies reader
    ensures reader.Valid() && Agrees(r, reader.Rest(), TakeSections(target, old(reader.Rest())))
  {
    hide TakeVarint, TakeBytes, ByteReader.Rest, ByteReader.Valid;
    var nData :- reader.ReadVarint();
    var nInst :- reader.ReadVarint();
    var nAddr :- reader.ReadVarint();
    var data :- reader.ReadBytes(nData);
    var inst :- reader.ReadBytes(nInst);
    var addr :- reader.ReadBytes(nAddr);
    return Ok(Delta(target, data, inst, addr));
  }

  method ReadDelta(done: nat, reader: ByteReader, lim: Limits) returns (r: Result<Delta, SarError>)
    requires reader.Valid()
    modifies reader
    ensures reader.Valid() && Agrees(r, reader.Rest(), TakeDelta(done, old(reader.Rest()), lim))
  {
    hide TakeVarint, TakeSections;
    var length :- reader.ReadVarint();
    if length > |reader.data| - reader.pos { return Err(PatchFailed); }
    var start := reader.pos;
    var target :- reader.ReadVarint();
    if done + target > U64_MAX { return Err(PatchFailed); }
    if done + target > lim.maxOutput { return Err(LimitExceeded); }
    var indicator :- reader.ReadU8();
    if indicator % 8 != 0 { return Err(Unsupported); }
    r := ReadSections(target, reader);
    if r.Ok? && reader.pos - start != length { return Err(PatchFailed); }
  }

  /** `decode_window`: the output extended by one window. */
  method DecodeWindow(base: seq<byte>, reader: ByteReader, table: seq<Entry>, lim: Limits, output: seq<byte>)
    returns (r: Result<seq<byte>, SarError>)
    requires reader.Valid() && IsTable(table)
    modifies reader
    ensures reader.Valid()
    ensures match TakeWindow(base, output, old(reader.Rest()), lim)
      case Ok((out, rest)) => r == Ok(output + out) && reader.Rest() == rest
      case Err(e) => r == Err(e)
  {
    hide TakeSegment, TakeDelta, Window, IsTable;
    var win :- reader.ReadU8();
    if win > 2 { return Err(PatchFailed); }
    var source :- ReadSegment(win, base, output, reader);
    var d :- ReadDelta(|output|, reader, lim);
    r := ApplyInstructions(source, d.data, d.inst, d.addr, d.target, table, lim.maxInstructions, output);
  }

  method ReadHeader(reader: ByteReader) returns (r: Check)
    requires reader.Valid()
    modifies reader
    ensures reader.Valid() && Agrees(r, reader.Rest(), TakeHeader(old(reader.Rest())))
  {
    var magic :- reader.ReadBytes(4);
    if magic != STREAM_HEADER { return Err(PatchFailed); }
    var indicator :- reader.ReadU8();
    if indicator % 2 == 1 {
      var compressor :- reader.ReadU8();
      if compressor != 0 { return Err(Unsupported); }
    }
    if indicator / 2 % 2 == 1 { return Err(PatchFailed); }
    return Ok(());
  }

  /** `apply_vcdiff`. */
  method Apply(base: seq<byte>, patch: seq<byte>, expected: nat, lim: Limits) returns (r: Result<seq<byte>, SarError>)
    ensures r == Meaning(base, patch, expected, lim)
  {
    hide TakeHeader, Windows, TakeWindow, IsTable, ByteReader.Rest;
    if |patch| > lim.maxPatch { return Err(LimitExceeded); }
    var reader := new ByteReader(patch);
    var _ :- ReadHeader(reader);
    var built := CodeTable.Build();
    var table := built[..];
    var output: seq<byte>, count := [], 0;
    ghost var whole := Windows(base, [], reader.Rest(), lim.maxWindows, lim);
    while true
      invariant reader.Valid() && fresh(reader) && count <= lim.maxWindows && IsTable(table)
      invariant whole == Windows(base, output, reader.Rest(), lim.maxWindows - count, lim)
      decreases |reader.Rest()|
    {
      WindowsUnfold(base, output, reader.Rest(), lim.maxWindows - count, lim);
      var done := reader.IsEmpty();
      if done { break; }
      if count >= lim.maxWindows { return Err(LimitExceeded); }
      count := count + 1;
      output :- DecodeWindow(base, reader, table, lim, output);
      if |output| > lim.maxOutput { return Err(LimitExceeded); }
    }
    if |output| != expected { return Err(PatchFailed); }
    return Ok(output);
  }

  lemma WindowsUnfold(base: seq<byte>, prev: seq<byte>, s: seq<byte>, budget: nat, lim: Limits)
    ensures Windows(base, prev, s, budget, lim) ==
      if s == [] then Ok(prev)
      else if budget == 0 then Err(LimitExceeded)
      else match TakeWindow(base, prev, s, lim)
        case Ok((out, rest)) =>
          if |prev + out| > lim.maxOutput then Err(LimitExceeded)
          else Windows(base, prev + out, rest, budget - 1, lim)
        case Err(e) => Err(e)
  {
    hide TakeWindow;
  }

  // ---------------------------------------------------------------------
  // The generator
  // ---------------------------------------------------------------------

  /** The instruction section: code 1 is ADD with an explicit size. */
  function AddAll(n: nat): seq<byte> {
    [1] + Encode(n)
  }

  /** A delta encoding written out; its sections are not compressed. */
  function Packed(d: Delta): seq<byte> {
    Encode(d.target) + ([0] + (Encode(|d.data|) + (Encode(|d.inst|) + (Encode(|d.addr|) + (d.data + (d.inst + d.addr))))))
  }

  /** A window without a source segment. */
  function Plain(d: Delta): seq<byte> {
    [0] + (Encode(|Packed(d)|) + Packed(d))
  }

  function AddDelta(target: seq<byte>): Delta {
    Delta(|target|, target, AddAll(|target|), [])
  }

  function Generated(target: seq<byte>): seq<byte> {
    STREAM_HEADER + ([0] + if target == [] then [] else Plain(AddDelta(target)))
  }

  /** The body of a generated window, in the order the generator appends its parts. */
  lemma AddPacked(target: seq<byte>, size: seq<byte>, inst: seq<byte>, instLen: seq<byte>, addrLen: seq<byte>)
    requires size == Encode(|target|) && inst == [1] + size && instLen == Encode(|inst|) && addrLen == Encode(0)
    ensures Packed(AddDelta(target)) == size + [0] + size + instLen + addrLen + target + inst
  {
    hide Encode;
    assert inst + [] == inst;
    var a := addrLen + (target + inst);
    assert size + ([0] + (size + (instLen + a))) == size + [0] + size + instLen + a;
    assert size + [0] + size + instLen + a == size + [0] + size + instLen + addrLen + target + inst;
  }

  lemma GeneratedFlat(target: seq<byte>, length: seq<byte>, body: seq<byte>)
    requires target != [] && body == Packed(AddDelta(target)) && length == Encode(|body|)
    ensures Generated(target) == STREAM_HEADER + [0] + [0] + length + body
  {
    hide Encode, Packed;
    assert STREAM_HEADER + ([0] + ([0] + (length + body))) == STREAM_HEADER + [0] + [0] + length + body;
  }

  lemma GeneratedLonger(target: seq<byte>)
    ensures |Generated(target)| >= |target| && (target == [] ==> |Generated(target)| == 5)
  {
    hide Encode;
  }

  predicate CanGenerate(target: seq<byte>, lim: Limits) {
    && |target| <= lim.maxOutput && |Generated(target)| <= lim.maxPatch && |Generated(target)| <= U64_MAX
    && (target != [] ==> lim.maxWindows >= 1 && lim.maxInstructions >= 1)
  }

  /** `generate_vcdiff_patch`; the base is not consulted. */
  method Generate(base: seq<byte>, target: seq<byte>, lim: Limits) returns (r: Result<seq<byte>, SarError>)
    ensures r == if CanGenerate(target, lim) then Ok(Generated(target)) else Err(LimitExceeded)
  {
    hide Encode, Packed, Generated;
    GeneratedLonger(target);
    if |target| > U64_MAX || |target| > lim.maxOutput { return Err(LimitExceeded); }
    if target == [] {
      if 5 > lim.maxPatch { return Err(LimitExceeded); }
      assert STREAM_HEADER + [0] == Generated(target) by { GeneratedEmpty(); }
      return Ok(STREAM_HEADER + [0]);
    }
    if lim.maxWindows < 1 || lim.maxInstructions < 1 { return Err(LimitExceeded); }
    var size := EncodeVarint(|target|);
    var inst: seq<byte> := [1] + size;
    EncodeShort(|target|);
    var instLen := EncodeVarint(|inst|);
    var addrLen := EncodeVarint(0);
    var deltaLen := |size| + 1 + |size| + |instLen| + |addrLen| + |target| + |inst|;
    var body := size + [0] + size + instLen + addrLen + target + inst;
    AddPacked(target, size, inst, instLen, addrLen);
    GeneratedFlat(target, Encode(deltaLen), body);
    if deltaLen > U64_MAX { return Err(LimitExceeded); }
    var length := EncodeVarint(deltaLen);
    var patchSize := 4 + 1 + 1 + |length| + deltaLen;
    if patchSize > U64_MAX || patchSize > lim.maxPatch { return Err(LimitExceeded); }
    return Ok(STREAM_HEADER + [0] + [0] + length + body);
  }

  lemma GeneratedEmpty()
    ensures Generated([]) == STREAM_HEADER + [0]
  {
  }

  /** A 64-bit varint is at most ten bytes. */
  lemma EncodeShort(v: u64)
    ensures |Encode(v)| <= 10
  {
    DigitsShort(v / 128, 9, 0x2000_0000_0000_0000);
  }

  lemma {:induction false} DigitsShort(v: nat, k: nat, bound: nat)
    requires v < bound && bound <= Pow128(k)
    ensures |Digits(v)| <= k
    decreases k
  {
    if v > 0 { DigitsShort(v / 128, k - 1, Pow128(k - 1)); }
  }

  function Pow128(k: nat): nat {
    if k == 0 then 1 else 128 * Pow128(k - 1)
  }

  // ---------------------------------------------------------------------
  // Round trip
  // ---------------------------------------------------------------------

  /** A window whose only instruction adds all of its data. */
  lemma AddOnlyWindow(x: Input, target: seq<byte>, budget: nat)
    requires 0 < |target| <= U64_MAX && budget >= 1
    ensures Window(x, |target|, budget, Start(target, AddAll(|target|), []), []) == Ok(target)
  {
    hide Encode, TakeVarint, Window;
    var n := |target|;
    var s := Start(target, AddAll(n), []);
    assert s.inst[1..] == Encode(n) && Encode(n) + [] == Encode(n);
    VarintRoundTrip(n, []);
    assert target[..n] == target && target[n..] == [];
    var s0 := s.(inst := Encode(n));
    assert Fetch(InstDef(Add, 0, 0), |x.source|, s0) == Ok((AddOp(target), Sections([], [], [], [])));
    assert [] + target == target;
    assert ExecCode(1, x, n, s0, []) == Ok((Sections([], [], [], []), target));
    WindowUnfold(x, n, budget, s, []);
    WindowUnfold(x, n, budget - 1, Sections([], [], [], []), target);
  }

  predicate Fits(d: Delta) {
    d.target <= U64_MAX && |d.data| <= U64_MAX && |d.inst| <= U64_MAX && |d.addr| <= U64_MAX && |Packed(d)| <= U64_MAX
  }

  lemma PackedSections(d: Delta, rest: seq<byte>)
    requires Fits(d)
    ensures TakeSections(d.target,
                         Encode(|d.data|) + (Encode(|d.inst|) + (Encode(|d.addr|) + (d.data + (d.inst + (d.addr + rest))))))
      == Ok((d, rest))
  {
    hide Encode, TakeVarint, Packed;
    var s5 := d.addr + rest;
    var s4 := d.inst + s5;
    var s3 := d.data + s4;
    VarintRoundTrip(|d.data|, Encode(|d.inst|) + (Encode(|d.addr|) + s3));
    VarintRoundTrip(|d.inst|, Encode(|d.addr|) + s3);
    VarintRoundTrip(|d.addr|, s3);
    assert s3[..|d.data|] == d.data && s3[|d.data|..] == s4;
    assert s4[..|d.inst|] == d.inst && s4[|d.inst|..] == s5;
    assert s5[..|d.addr|] == d.addr && s5[|d.addr|..] == rest;
  }

  /** A delta encoding is read back. */
  lemma PackedDelta(done: nat, d: Delta, rest: seq<byte>, lim: Limits)
    requires Fits(d) && done + d.target <= lim.maxOutput && done + d.target <= U64_MAX
    ensures TakeDelta(done, Encode(|Packed(d)|) + (Packed(d) + rest), lim) == Ok((d, rest))
  {
    hide Encode, TakeVarint, TakeSections;
    var sections := Encode(|d.data|) + (Encode(|d.inst|) + (Encode(|d.addr|) + (d.data + (d.inst + (d.addr + rest)))));
    assert Packed(d) + rest == Encode(d.target) + ([0] + sections);
    VarintRoundTrip(|Packed(d)|, Packed(d) + rest);
    VarintRoundTrip(d.target, [0] + sections);
    assert ([0] + sections)[1..] == sections;
    PackedSections(d, rest);
  }

  lemma PackedWindow(base: seq<byte>, prev: seq<byte>, d: Delta, out: seq<byte>, rest: seq<byte>, lim: Limits)
    requires Fits(d) && |prev| + d.target <= lim.maxOutput && |prev| + d.target <= U64_MAX
    requires Window(Input([], prev), d.target, lim.maxInstructions, Start(d.data, d.inst, d.addr), []) == Ok(out)
    ensures TakeWindow(base, prev, Plain(d) + rest, lim) == Ok((out, rest))
  {
    hide Encode, TakeDelta, Packed, Fits, Window;
    var s := Encode(|Packed(d)|) + (Packed(d) + rest);
    assert Plain(d) + rest == [0] + s && ([0] + s)[1..] == s;
    PackedDelta(|prev|, d, rest, lim);
  }

  /** Round trip: a generated patch applied to any base under the same limits gives the target. */
  lemma RoundTrip(base: seq<byte>, target: seq<byte>, lim: Limits)
    requires CanGenerate(target, lim)
    ensures Meaning(base, Generated(target), |target|, lim) == Ok(target)
  {
    hide Encode, Windows, Window, TakeWindow, Plain;
    var patch := Generated(target);
    var stream := if target == [] then [] else Plain(AddDelta(target));
    assert patch[..4] == STREAM_HEADER && patch[4..] == [0] + stream && ([0] + stream)[1..] == stream;
    WindowsUnfold(base, [], stream, lim.maxWindows, lim);
    if target != [] {
      GeneratedFits(target);
      AddOnlyWindow(Input([], []), target, lim.maxInstructions);
      assert stream + [] == stream && [] + target == target;
      PackedWindow(base, [], AddDelta(target), target, [], lim);
      WindowsUnfold(base, target, [], lim.maxWindows - 1, lim);
    }
  }

  lemma GeneratedFits(target: seq<byte>)
    requires target != [] && |Generated(target)| <= U64_MAX
    ensures Fits(AddDelta(target))
  {
    hide Encode;
  }

  // ---------------------------------------------------------------------
  // A COPY that reads an earlier window
  // ---------------------------------------------------------------------

  /** One COPY of `n` bytes (code 19: self mode, explicit size) from address `WORD - start`. */
  function LateDelta(start: nat, n: nat): Delta
    requires start <= WORD
  {
    Delta(n, [], [19] + Encode(n), Encode(WORD - start))
  }

  /** A window that adds `first`, and one without a source segment that copies `n` bytes. */
  function TwoWindows(first: seq<byte>, n: nat): seq<byte>
    requires |first| <= WORD
  {
    STREAM_HEADER + ([0] + (Plain(AddDelta(first)) + Plain(LateDelta(|first|, n))))
  }

  lemma LateFetch(a: u64, n: u64)
    ensures Fetch(InstDef(Copy, 0, 0), 0, Sections([], Encode(n), Encode(a), []))
      == Ok((CopyOp(a, n), Sections([], [], [], [a])))
  {
    hide Encode, TakeVarint;
    assert Encode(n) + [] == Encode(n) && Encode(a) + [] == Encode(a) && [] + [a] == [a];
    VarintRoundTrip(n, []);
    VarintRoundTrip(a, []);
  }

  lemma LateExec(prev: seq<byte>, n: nat)
    requires 0 < n < |prev| && |prev| + n <= U64_MAX
    ensures var a := WORD - |prev|;
      ExecCode(19, Input([], prev), n, Sections([], Encode(n), Encode(a), []), []) ==
      Ok((Sections([], [], [], [a]), prev[..n]))
  {
    hide Encode, Fetch, Op.Accepts, Op.Writes;
    var x, op := Input([], prev), CopyOp(WORD - |prev|, n);
    LateFetch(op.addr, n);
    CopyAccepts(x, [], op);
    WrappedBytes(x, [], op);
    assert [] + prev[0..n] == prev[..n];
  }

  lemma LateWindow(prev: seq<byte>, n: nat, budget: nat)
    requires 0 < n < |prev| && |prev| + n <= U64_MAX && budget >= 1
    ensures var d := LateDelta(|prev|, n);
      Window(Input([], prev), n, budget, Start(d.data, d.inst, d.addr), []) == Ok(prev[..n])
  {
    hide Encode, Window, ExecCode;
    var d, x := LateDelta(|prev|, n), Input([], prev);
    var s := Start(d.data, d.inst, d.addr);
    assert s.inst[1..] == Encode(n);
    LateExec(prev, n);
    WindowUnfold(x, n, budget, s, []);
    WindowUnfold(x, n, budget - 1, Sections([], [], [], [WORD - |prev|]), prev[..n]);
  }

  /**
   The second window's COPY lies outside its superstring, which is empty, and yet the patch
   is accepted and the COPY returns bytes of the first window.
   */
  lemma LateCopy(base: seq<byte>, first: seq<byte>, n: nat, lim: Limits)
    requires 0 < n < |first| && |first| + n <= U64_MAX && |first| + n <= lim.maxOutput
    requires lim.maxWindows >= 2 && lim.maxInstructions >= 1
    requires |TwoWindows(first, n)| <= lim.maxPatch && |TwoWindows(first, n)| <= U64_MAX
    ensures Meaning(base, TwoWindows(first, n), |first| + n, lim) == Ok(first + first[..n])
    ensures !CopyOp(WORD - |first|, n).Legal([])
  {
    hide Encode, Windows, Window, TakeWindow, Plain;
    var patch, second := TwoWindows(first, n), Plain(LateDelta(|first|, n));
    var stream := Plain(AddDelta(first)) + second;
    assert patch[..4] == STREAM_HEADER && patch[4..] == [0] + stream && ([0] + stream)[1..] == stream;
    LateFits(first, n);
    AddOnlyWindow(Input([], []), first, lim.maxInstructions);
    PackedWindow(base, [], AddDelta(first), first, second, lim);
    WindowsUnfold(base, [], stream, lim.maxWindows, lim);
    assert [] + first == first && second + [] == second;
    LateWindow(first, n, lim.maxInstructions);
    PackedWindow(base, first, LateDelta(|first|, n), first[..n], [], lim);
    WindowsUnfold(base, first, second, lim.maxWindows - 1, lim);
    WindowsUnfold(base, first + first[..n], [], lim.maxWindows - 2, lim);
  }

  lemma LateFits(first: seq<byte>, n: nat)
    requires 0 < n < |first| <= WORD && |TwoWindows(first, n)| <= U64_MAX
    ensures Fits(AddDelta(first)) && Fits(LateDelta(|first|, n))
    ensures |Plain(AddDelta(first))| > 0 && |Plain(LateDelta(|first|, n))| > 0
  {
    hide Encode;
  }
}
