/** VCDIFF streams written out byte by byte, and what the applier makes of them. */
module VcdiffWriting {
  import opened Bytes
  import opened Varint
  import opened CodeTable
  import opened AddrCache
  import opened VcdiffWindow
  import opened Vcdiff

  // ---------------------------------------------------------------------
  // Instruction lists
  // ---------------------------------------------------------------------

  /** The instruction section of a list: code 1, 2 or 19 (ADD, RUN, COPY in self mode) and the size. */
  function InstOf(ops: seq<Op>): seq<byte> {
    if ops == [] then []
    else
      (match ops[0]
       case AddOp(s) => [1] + Encode(|s|)
       case RunOp(_, n) => [2] + Encode(n)
       case CopyOp(_, n) => [19] + Encode(n)) + InstOf(ops[1..])
  }

  /** The data section: the bytes to add and the byte to repeat. */
  function BytesOf(ops: seq<Op>): seq<byte> {
    if ops == [] then []
    else
      (match ops[0]
       case AddOp(s) => s
       case RunOp(b, _) => [b]
       case CopyOp(_, _) => []) + BytesOf(ops[1..])
  }

  /** The address section. */
  function AddrOf(ops: seq<Op>): seq<byte> {
    if ops == [] then []
    else (if ops[0].CopyOp? then Encode(ops[0].addr) else []) + AddrOf(ops[1..])
  }

  /** Every instruction writes something and fits 64 bits. */
  predicate Writable(ops: seq<Op>) {
    forall op :: op in ops ==> 0 < op.Size() <= U64_MAX && (op.CopyOp? ==> op.addr <= U64_MAX)
  }

  function Written(ops: seq<Op>, history: seq<nat>): Sections {
    Sections(BytesOf(ops), InstOf(ops), AddrOf(ops), history)
  }

  function HistoryAfter(op: Op, history: seq<nat>): seq<nat> {
    if op.CopyOp? then history + [op.addr] else history
  }

  function CodeFor(op: Op): byte {
    match op case AddOp(_) => 1 case RunOp(_, _) => 2 case CopyOp(_, _) => 19
  }

  lemma FetchAdd(bytes: seq<byte>, inst: seq<byte>, data: seq<byte>, addr: seq<byte>, history: seq<nat>, here: nat)
    requires |bytes| <= U64_MAX
    ensures Fetch(InstDef(Add, 0, 0), here, Sections(bytes + data, Encode(|bytes|) + inst, addr, history))
      == Ok((AddOp(bytes), Sections(data, inst, addr, history)))
  {
    hide Encode, TakeVarint;
    VarintRoundTrip(|bytes|, inst);
    assert (bytes + data)[..|bytes|] == bytes && (bytes + data)[|bytes|..] == data;
  }

  lemma FetchRun(b: byte, n: u64, inst: seq<byte>, data: seq<byte>, addr: seq<byte>, history: seq<nat>, here: nat)
    ensures Fetch(InstDef(Run, 0, 0), here, Sections([b] + data, Encode(n) + inst, addr, history))
      == Ok((RunOp(b, n), Sections(data, inst, addr, history)))
  {
    hide Encode, TakeVarint;
    VarintRoundTrip(n, inst);
    assert ([b] + data)[1..] == data;
  }

  lemma FetchCopy(a: u64, n: u64, inst: seq<byte>, data: seq<byte>, addr: seq<byte>, history: seq<nat>, here: nat)
    ensures Fetch(InstDef(Copy, 0, 0), here, Sections(data, Encode(n) + inst, Encode(a) + addr, history))
      == Ok((CopyOp(a, n), Sections(data, inst, addr, history + [a])))
  {
    hide Encode, TakeVarint;
    VarintRoundTrip(n, inst);
    VarintRoundTrip(a, addr);
  }

  /** The written sections begin with those of the first instruction. */
  lemma WrittenFront(ops: seq<Op>)
    requires ops != []
    ensures var op, rest := ops[0], ops[1..];
      && InstOf(ops) == [CodeFor(op)] + (Encode(op.Size()) + InstOf(rest))
      && BytesOf(ops) == (if op.AddOp? then op.bytes else if op.RunOp? then [op.value] else []) + BytesOf(rest)
      && AddrOf(ops) == (if op.CopyOp? then Encode(op.addr) else []) + AddrOf(rest)
  {
    hide Encode;
    var op := ops[0];
    assert [CodeFor(op)] + (Encode(op.Size()) + InstOf(ops[1..])) == [CodeFor(op)] + Encode(op.Size()) + InstOf(ops[1..]);
  }

  /** The first written instruction is fetched. */
  lemma FetchWritten(ops: seq<Op>, history: seq<nat>, here: nat)
    requires ops != [] && Writable(ops)
    ensures InstOf(ops) != [] && InstOf(ops)[0] == CodeFor(ops[0])
    ensures var d := EntryOf(CodeFor(ops[0])).first; var s := Written(ops, history);
      && !d.ty.Noop? && EntryOf(CodeFor(ops[0])).second.ty.Noop?
      && Fetch(d, here, s.(inst := s.inst[1..])) == Ok((ops[0], Written(ops[1..], HistoryAfter(ops[0], history))))
  {
    hide Encode, TakeVarint, Fetch, InstOf, BytesOf, AddrOf;
    var op, rest := ops[0], ops[1..];
    assert op in ops;
    WrittenFront(ops);
    var inst, data, addr := InstOf(rest), BytesOf(rest), AddrOf(rest);
    assert InstOf(ops)[1..] == Encode(op.Size()) + inst;
    assert [] + data == data && [] + addr == addr;
    match op
    case AddOp(s) => FetchAdd(s, inst, data, addr, history, here);
    case RunOp(b, n) => FetchRun(b, n, inst, data, addr, history, here);
    case CopyOp(a, n) => FetchCopy(a, n, inst, data, addr, history, here);
  }

  /** An instruction that is legal for the superstring so far is accepted and writes what it should. */
  lemma LegalAccepted(x: Input, out: seq<byte>, op: Op)
    requires |x.prev| + |out| <= U64_MAX && |x.source| + |out| <= U64_MAX && op.Legal(x.source + out)
    ensures op.Accepts(x, out) && op.Writes(x, out) == op.Effect(x.source + out)
  {
    hide Op.Accepts, Op.Writes, Op.Effect;
    if op.CopyOp? && op.count > 0 { CopyAccepts(x, out, op); } else { AlwaysAccepted(x, out, op); }
    OpAgrees(x, out, op);
  }

  lemma AlwaysAccepted(x: Input, out: seq<byte>, op: Op)
    requires !(op.CopyOp? && op.count > 0)
    ensures op.Accepts(x, out)
  {
  }

  lemma ExecWritten(x: Input, target: nat, ops: seq<Op>, history: seq<nat>, out: seq<byte>)
    requires ops != [] && Writable(ops) && |x.prev| + target <= U64_MAX && |x.source| + target <= U64_MAX
    requires |out| + ops[0].Size() <= target && ops[0].Legal(x.source + out)
    ensures InstOf(ops) != []
    ensures var s := Written(ops, history);
      ExecCode(s.inst[0], x, target, s.(inst := s.inst[1..]), out) ==
      Ok((Written(ops[1..], HistoryAfter(ops[0], history)), out + ops[0].Effect(x.source + out)))
  {
    hide Fetch, Op.Accepts, Op.Writes, Op.Effect, Op.Legal, InstOf, Written, EntryOf;
    FetchWritten(ops, history, |x.source| + |out|);
    LegalAccepted(x, out, ops[0]);
    SectionsOf(ops, history);
  }

  lemma SectionsOf(ops: seq<Op>, history: seq<nat>)
    ensures Written(ops, history).inst == InstOf(ops)
  {
  }

  /** The rest of a window is written as the rest of the instructions. */
  lemma {:induction false} RestDecodes(x: Input, v: seq<byte>, p: nat, ops: seq<Op>, history: seq<nat>, budget: nat)
    requires Writable(ops) && |x.prev| + |v| <= U64_MAX && |x.source| + |v| <= U64_MAX && |ops| <= budget && p <= |v|
    requires Obeys(x.source + v, |x.source| + p, ops)
    ensures Window(x, |v|, budget, Written(ops, history), v[..p]) == Ok(v)
    decreases |ops|
  {
    hide Window, ExecCode, Op.Legal, Op.Effect, InstOf, BytesOf, AddrOf;
    WindowUnfold(x, |v|, budget, Written(ops, history), v[..p]);
    if ops == [] {
      NothingWritten(history);
      assert v[..p] == v;
    } else {
      var op, u, q := ops[0], x.source + v, |x.source| + p;
      assert op in ops && u[..q] == x.source + v[..p];
      ExecWritten(x, |v|, ops, history, v[..p]);
      var next := p + op.Size();
      assert u[q..q + op.Size()] == v[p..next] && v[..p] + v[p..next] == v[..next];
      RestDecodes(x, v, next, ops[1..], HistoryAfter(op, history), budget - 1);
    }
  }

  lemma NothingWritten(history: seq<nat>)
    ensures Written([], history) == Sections([], [], [], history)
  {
  }

  /** Every instruction list that describes a window can be written, and what is written decodes to that window. */
  lemma WrittenDecodes(x: Input, v: seq<byte>, ops: seq<Op>, budget: nat)
    requires Writable(ops) && |x.prev| + |v| <= U64_MAX && |x.source| + |v| <= U64_MAX && |ops| <= budget
    requires Obeys(x.source + v, |x.source|, ops)
    ensures Window(x, |v|, budget, Start(BytesOf(ops), InstOf(ops), AddrOf(ops)), []) == Ok(v)
  {
    hide Window, Obeys, InstOf, BytesOf, AddrOf;
    assert v[..0] == [];
    RestDecodes(x, v, 0, ops, [], budget);
  }

  // ---------------------------------------------------------------------
  // Windows and streams
  // ---------------------------------------------------------------------

  /** A window to be written: which bytes it refers to (0: none, 1: the base, 2: the output so far), what it says and yields. */
  datatype Plan = Plan(win: byte, pos: nat, size: nat, ops: seq<Op>, out: seq<byte>)
  {
    /** The segment that the window refers to. */
    function Segment(base: seq<byte>, prev: seq<byte>): seq<byte>
      requires InRange(base, prev)
    {
      if win == 1 then base[pos..pos + size] else if win == 2 then prev[pos..pos + size] else []
    }

    predicate InRange(base: seq<byte>, prev: seq<byte>) {
      && win <= 2 && pos <= U64_MAX && size <= U64_MAX
      && (win == 1 ==> pos + size <= |base|) && (win == 2 ==> pos + size <= |prev|)
    }

    /** Lengths of the target and of the three sections, then the sections. */
    function Body(): seq<byte> {
      Encode(|out|) + ([0] + (Encode(|BytesOf(ops)|) + (Encode(|InstOf(ops)|) + (Encode(|AddrOf(ops)|)
        + (BytesOf(ops) + (InstOf(ops) + AddrOf(ops)))))))
    }

    function Written(): seq<byte> {
      [win] + ((if win == 0 then [] else Encode(size) + Encode(pos)) + (Encode(|Body()|) + Body()))
    }

    /** The instructions describe the output, within the limits. */
    predicate Says(base: seq<byte>, prev: seq<byte>, lim: Limits) {
      && InRange(base, prev) && Writable(ops) && |ops| <= lim.maxInstructions && |Body()| <= U64_MAX
      && |prev| + |out| <= U64_MAX && |prev| + |out| <= lim.maxOutput && |Segment(base, prev)| + |out| <= U64_MAX
      && Obeys(Segment(base, prev) + out, |Segment(base, prev)|, ops)
    }
  }

  lemma SegmentIsTaken(w: Plan, base: seq<byte>, prev: seq<byte>, rest: seq<byte>)
    requires w.InRange(base, prev)
    ensures TakeSegment(w.win, base, prev, (if w.win == 0 then [] else Encode(w.size) + Encode(w.pos)) + rest)
      == Ok((w.Segment(base, prev), rest))
  {
    hide Encode, TakeVarint;
    if w.win == 0 {
      assert [] + rest == rest;
    } else {
      assert Encode(w.size) + Encode(w.pos) + rest == Encode(w.size) + (Encode(w.pos) + rest);
      VarintRoundTrip(w.size, Encode(w.pos) + rest);
      VarintRoundTrip(w.pos, rest);
    }
  }

  lemma BodyIsPacked(w: Plan)
    ensures w.Body() == Packed(Delta(|w.out|, BytesOf(w.ops), InstOf(w.ops), AddrOf(w.ops)))
    ensures |w.Body()| >= |BytesOf(w.ops)| && |w.Body()| >= |InstOf(w.ops)| && |w.Body()| >= |AddrOf(w.ops)|
  {
    hide Encode, InstOf, BytesOf, AddrOf;
  }

  /** A written window is taken, and yields what its instructions describe. */
  lemma WindowIsTaken(w: Plan, base: seq<byte>, prev: seq<byte>, rest: seq<byte>, lim: Limits)
    requires w.Says(base, prev, lim)
    ensures TakeWindow(base, prev, w.Written() + rest, lim) == Ok((w.out, rest))
  {
    hide Encode, InstOf, BytesOf, AddrOf, Obeys, Window, TakeSegment, TakeDelta, Packed, Plan.Segment, Plan.Body;
    var d := Delta(|w.out|, BytesOf(w.ops), InstOf(w.ops), AddrOf(w.ops));
    var segment := if w.win == 0 then [] else Encode(w.size) + Encode(w.pos);
    var behind := Encode(|w.Body()|) + (w.Body() + rest);
    BodyIsPacked(w);
    assert w.Written() + rest == [w.win] + (segment + behind);
    assert ([w.win] + (segment + behind))[1..] == segment + behind;
    SegmentIsTaken(w, base, prev, behind);
    PackedDelta(|prev|, d, rest, lim);
    WrittenDecodes(Input(w.Segment(base, prev), prev), w.out, w.ops, lim.maxInstructions);
  }

  function StreamOf(ws: seq<Plan>): seq<byte> {
    if ws == [] then [] else ws[0].Written() + StreamOf(ws[1..])
  }

  function OutputOf(ws: seq<Plan>): seq<byte> {
    if ws == [] then [] else ws[0].out + OutputOf(ws[1..])
  }

  /** Each window describes its output behind the outputs of those before it. */
  predicate AllSay(base: seq<byte>, prev: seq<byte>, ws: seq<Plan>, lim: Limits)
    decreases |ws|
  {
    ws != [] ==> ws[0].Says(base, prev, lim) && AllSay(base, prev + ws[0].out, ws[1..], lim)
  }

  lemma {:induction false} StreamIsTaken(base: seq<byte>, prev: seq<byte>, ws: seq<Plan>, budget: nat, lim: Limits)
    requires AllSay(base, prev, ws, lim) && |ws| <= budget
    ensures Windows(base, prev, StreamOf(ws), budget, lim) == Ok(prev + OutputOf(ws))
    decreases |ws|
  {
    hide Windows, TakeWindow, Plan.Says, Plan.Written;
    WindowsUnfold(base, prev, StreamOf(ws), budget, lim);
    if ws == [] {
      assert prev + [] == prev;
    } else {
      var w := ws[0];
      WindowIsTaken(w, base, prev, StreamOf(ws[1..]), lim);
      NeverEmpty(w);
      OutputWithin(w, base, prev, lim);
      StreamIsTaken(base, prev + w.out, ws[1..], budget - 1, lim);
      assert prev + w.out + OutputOf(ws[1..]) == prev + (w.out + OutputOf(ws[1..]));
    }
  }

  lemma NeverEmpty(w: Plan)
    ensures w.Written() != []
  {
    hide Encode, Plan.Body;
  }

  lemma OutputWithin(w: Plan, base: seq<byte>, prev: seq<byte>, lim: Limits)
    requires w.Says(base, prev, lim)
    ensures |prev + w.out| <= lim.maxOutput
  {
    hide Plan.Body, Plan.Segment, Obeys, Encode;
  }

  /**
   Every output that can be described window by window, out of the base, the earlier output and new
   bytes, can be written down, and applying what is written gives that output.
   */
  lemma WrittenApplies(base: seq<byte>, ws: seq<Plan>, lim: Limits)
    requires AllSay(base, [], ws, lim) && |ws| <= lim.maxWindows && 5 + |StreamOf(ws)| <= lim.maxPatch
    ensures Meaning(base, [0xD6, 0xC3, 0xC4, 0x00, 0x00] + StreamOf(ws), |OutputOf(ws)|, lim) == Ok(OutputOf(ws))
  {
    hide Windows, AllSay, StreamOf;
    var patch := [0xD6, 0xC3, 0xC4, 0x00, 0x00] + StreamOf(ws);
    assert patch[..4] == [0xD6, 0xC3, 0xC4, 0x00] && patch[4..][1..] == StreamOf(ws);
    StreamIsTaken(base, [], ws, lim.maxWindows, lim);
    assert [] + OutputOf(ws) == OutputOf(ws);
  }

  /** A single COPY of a piece of the base yields that piece. */
  lemma BaseSliceCopied(base: seq<byte>, pos: nat, size: nat, lim: Limits)
    requires 0 < size && pos + size <= |base| && 2 * |base| <= U64_MAX && size <= lim.maxOutput
    requires lim.maxWindows >= 1 && lim.maxInstructions >= 1
    requires var w := Plan(1, pos, size, [CopyOp(0, size)], base[pos..pos + size]);
      |w.Body()| <= U64_MAX && 5 + |w.Written()| <= lim.maxPatch
    ensures var w := Plan(1, pos, size, [CopyOp(0, size)], base[pos..pos + size]);
      Meaning(base, [0xD6, 0xC3, 0xC4, 0x00, 0x00] + w.Written(), size, lim) == Ok(base[pos..pos + size])
  {
    hide Meaning, Plan.Body, Plan.Written;
    var out := base[pos..pos + size];
    var w := Plan(1, pos, size, [CopyOp(0, size)], out);
    assert (out + out)[..size] == out && (out + out)[size..size + size] == out && out[0..size] == out;
    assert Obeys(out + out, size, [CopyOp(0, size)]);
    assert StreamOf([w]) == w.Written() + [] == w.Written() && OutputOf([w]) == out + [] == out;
    WrittenApplies(base, [w], lim);
  }

  // ---------------------------------------------------------------------
  // What is refused
  // ---------------------------------------------------------------------

  /** A stream header is accepted exactly with the magic, no secondary compressor and the default code table. */
  lemma HeaderExactly(s: seq<byte>)
    ensures TakeHeader(s).Ok? <==>
      && |s| >= 5 && s[0] == 0xD6 && s[1] == 0xC3 && s[2] == 0xC4 && s[3] == 0x00 && s[4] / 2 % 2 == 0
      && (s[4] % 2 == 1 ==> |s| >= 6 && s[5] == 0)
    ensures TakeHeader(s).Ok? ==> TakeHeader(s).value.1 == s[if s[4] % 2 == 1 then 6 else 5..]
  {
    if |s| >= 5 {
      assert s[..4] == [s[0], s[1], s[2], s[3]];
      assert s[4..][1..] == s[5..];
      if |s| >= 6 { assert s[5..][1..] == s[6..]; }
    }
  }

  /** A segment beyond the end of what it refers to is refused, and so is any other window indicator. */
  lemma SegmentRefused(win: byte, base: seq<byte>, prev: seq<byte>, pos: u64, size: u64, rest: seq<byte>, lim: Limits)
    requires (win == 1 && pos + size > |base|) || (win == 2 && pos + size > |prev|) || win > 2
    ensures TakeWindow(base, prev, [win] + (Encode(size) + (Encode(pos) + rest)), lim) == Err(PatchFailed)
  {
    hide Encode, TakeVarint, TakeDelta, Window;
    var s := Encode(size) + (Encode(pos) + rest);
    assert ([win] + s)[1..] == s;
    VarintRoundTrip(size, Encode(pos) + rest);
    VarintRoundTrip(pos, rest);
  }
}
