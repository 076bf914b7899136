/** One VCDIFF delta window: decoding its instructions and executing them in place. */
module VcdiffWindow {
  import opened Bytes
  import opened Varint
  import opened CodeTable
  import opened AddrCache

  // ---------------------------------------------------------------------
  // Instructions and what they append
  // ---------------------------------------------------------------------

  const WORD := 0x1_0000_0000_0000_0000

  /** What a window is decoded against: its source segment and the output of the windows before it. */
  datatype Input = Input(source: seq<byte>, prev: seq<byte>)
  {
    /** The place in the output of superstring address `src`: unchecked 64-bit addition. */
    function Index(src: nat): nat
      requires src >= |source|
    {
      (|prev| + (src - |source|)) % WORD
    }

    /** The one check made on each byte of a COPY. */
    predicate Within(out: seq<byte>, src: nat) {
      src < |source| || Index(src) < |prev| + |out|
    }

    function ByteAt(out: seq<byte>, src: nat): byte
      requires Within(out, src)
    {
      if src < |source| then source[src] else (prev + out)[Index(src)]
    }
  }

  /** A decoded instruction. */
  datatype Op = AddOp(bytes: seq<byte>) | RunOp(value: byte, count: nat) | CopyOp(addr: nat, count: nat)
  {
    function Size(): nat {
      match this
      case AddOp(s) => |s|
      case RunOp(_, n) => n
      case CopyOp(_, n) => n
    }

    /** What a COPY should be held to: it reads only what the superstring already holds. */
    predicate Legal(u: seq<byte>) {
      CopyOp? && count > 0 ==> addr + count <= |u|
    }

    /** What a legal instruction appends to the superstring `u` of source and target so far. */
    function Effect(u: seq<byte>): (s: seq<byte>)
      requires Legal(u)
      ensures |s| == Size()
    {
      match this
      case AddOp(s) => s
      case RunOp(b, n) => Repeat(b, n)
      case CopyOp(a, n) => if n == 0 then [] else u[a..a + n]
    }

    /** What the decoder lets through, once the instruction fits the window. */
    predicate Accepts(x: Input, out: seq<byte>) {
      CopyOp? && count > 0 ==>
        && addr + count <= U64_MAX
        && forall src :: addr <= src < addr + count ==> x.Within(out, src)
    }

    /** What the decoder writes for an instruction that it lets through. */
    function Writes(x: Input, out: seq<byte>): (s: seq<byte>)
      requires Accepts(x, out)
      ensures |s| == Size()
    {
      match this
      case AddOp(s) => s
      case RunOp(b, n) => Repeat(b, n)
      case CopyOp(a, n) => seq<byte>(n, i requires 0 <= i < n => x.ByteAt(out, a + i))
    }

    /** The 64-bit sum that locates the first byte of the COPY wraps around. */
    predicate Wraps(x: Input) {
      CopyOp? && count > 0 && addr + |x.prev| >= |x.source| + WORD
    }

    /** The bytes of the data section that the instruction uses up. */
    function Data(): seq<byte> {
      match this
      case AddOp(s) => s
      case RunOp(b, _) => [b]
      case CopyOp(_, _) => []
    }
  }

  function Repeat(b: byte, n: nat): (s: seq<byte>)
    ensures |s| == n && forall i :: 0 <= i < n ==> s[i] == b
  {
    seq(n, _ => b)
  }

  // ---------------------------------------------------------------------
  // Decoding
  // ---------------------------------------------------------------------

  /** What is left of the three sections, and the addresses decoded so far. */
  datatype Sections = Sections(data: seq<byte>, inst: seq<byte>, addr: seq<byte>, history: seq<nat>)

  function TakeSize(d: InstDef, inst: seq<byte>): (r: Parse<nat>)
    ensures r.Ok? ==> |r.value.1| <= |inst|
  {
    if d.size == 0 then
      var (v, t) :- TakeVarint(inst);
      Ok((v, t))
    else Ok((d.size, inst))
  }

  /** The next instruction of kind `d`, at superstring position `here`. */
  function Fetch(d: InstDef, here: nat, s: Sections): (r: Result<(Op, Sections), SarError>)
    requires !d.ty.Noop?
    ensures r.Ok? ==> |r.value.1.inst| <= |s.inst| && s.data == r.value.0.Data() + r.value.1.data
  {
    var (n, inst) :- TakeSize(d, s.inst);
    match d.ty
    case Add =>
      var (bytes, data) :- TakeBytes(s.data, n);
      Ok((AddOp(bytes), s.(inst := inst, data := data)))
    case Run =>
      var (b, data) :- TakeByte(s.data);
      Ok((RunOp(b, n), s.(inst := inst, data := data)))
    case Copy =>
      var (a, addr) :- TakeAddress(s.history, d.mode, here, s.addr);
      Ok((CopyOp(a, n), s.(inst := inst, addr := addr, history := s.history + [a])))
  }

  /** Decoding and executing one half of a code-table entry. */
  function Exec(d: InstDef, x: Input, target: nat, s: Sections, out: seq<byte>)
    : (r: Result<(Sections, seq<byte>), SarError>)
    ensures r.Ok? ==> |r.value.0.inst| <= |s.inst|
  {
    if d.ty.Noop? then Ok((s, out))
    else
      var (op, s') :- Fetch(d, |x.source| + |out|, s);
      if |out| + op.Size() <= target && op.Accepts(x, out)
      then Ok((s', out + op.Writes(x, out)))
      else Err(PatchFailed)
  }

  function ExecCode(code: byte, x: Input, target: nat, s: Sections, out: seq<byte>)
    : (r: Result<(Sections, seq<byte>), SarError>)
    ensures r.Ok? ==> |r.value.0.inst| <= |s.inst|
  {
    hide Exec, EntryOf;
    var (s1, out1) :- Exec(EntryOf(code).first, x, target, s, out);
    Exec(EntryOf(code).second, x, target, s1, out1)
  }

  predicate Complete(target: nat, s: Sections, out: seq<byte>) {
    |out| == target && s.data == [] && s.addr == []
  }

  /** The instruction loop of a window of `target` bytes. */
  function Window(x: Input, target: nat, budget: nat, s: Sections, out: seq<byte>)
    : Result<seq<byte>, SarError>
    decreases |s.inst|
  {
    hide ExecCode;
    if s.inst == [] then if Complete(target, s, out) then Ok(out) else Err(PatchFailed)
    else if |out| >= target then Err(PatchFailed)
    else if budget == 0 then Err(LimitExceeded)
    else
      var (s', out') :- ExecCode(s.inst[0], x, target, s.(inst := s.inst[1..]), out);
      Window(x, target, budget - 1, s', out')
  }

  // ---------------------------------------------------------------------
  // The denotation of a window
  // ---------------------------------------------------------------------

  /** The instruction, if any, that one half of an entry decodes to. */
  function OpOf(d: InstDef, here: nat, s: Sections): seq<Op> {
    if d.ty.Noop? then [] else match Fetch(d, here, s) case Ok((op, _)) => [op] case Err(_) => []
  }

  function OpsOfCode(code: byte, x: Input, target: nat, s: Sections, out: seq<byte>): seq<Op> {
    OpOf(EntryOf(code).first, |x.source| + |out|, s) +
    match Exec(EntryOf(code).first, x, target, s, out)
    case Ok((s1, out1)) => OpOf(EntryOf(code).second, |x.source| + |out1|, s1)
    case Err(_) => []
  }

  /** The instruction list of a window. */
  function Ops(x: Input, target: nat, budget: nat, s: Sections, out: seq<byte>): seq<Op>
    decreases |s.inst|
  {
    hide ExecCode, OpsOfCode;
    if s.inst == [] || budget == 0 then []
    else
      var s0 := s.(inst := s.inst[1..]);
      OpsOfCode(s.inst[0], x, target, s0, out) +
      match ExecCode(s.inst[0], x, target, s0, out)
      case Ok((s', out')) => Ops(x, target, budget - 1, s', out')
      case Err(_) => []
  }

  function DataOf(ops: seq<Op>): seq<byte> {
    if ops == [] then [] else ops[0].Data() + DataOf(ops[1..])
  }

  /**
   The finished superstring `u` obeys the instructions from position `p` on: each one
   describes the next piece of `u`, a COPY by pointing at an earlier piece of the same `u`.
   */
  predicate Obeys(u: seq<byte>, p: nat, ops: seq<Op>)
    decreases |ops|
  {
    if ops == [] then p == |u|
    else Describes(u, p, ops[0]) && Obeys(u, p + ops[0].Size(), ops[1..])
  }

  predicate Describes(u: seq<byte>, p: nat, op: Op) {
    p + op.Size() <= |u| && op.Legal(u[..p]) && u[p..p + op.Size()] == op.Effect(u[..p])
  }

  /** The instructions determine the superstring. */
  lemma {:induction false} ObeysUnique(u: seq<byte>, w: seq<byte>, p: nat, ops: seq<Op>)
    requires p <= |u| && p <= |w| && u[..p] == w[..p] && Obeys(u, p, ops) && Obeys(w, p, ops)
    ensures u == w
    decreases |ops|
  {
    hide Op.Effect, Op.Legal;
    if ops == [] {
      assert u == u[..p] && w == w[..p];
    } else {
      var q := p + ops[0].Size();
      assert u[..q] == u[..p] + u[p..q] && w[..q] == w[..p] + w[p..q];
      ObeysUnique(u, w, q, ops[1..]);
    }
  }

  /** The finished window `v` follows the instructions from position `p` on as the decoder reads them. */
  predicate Follows(x: Input, v: seq<byte>, p: nat, ops: seq<Op>)
    decreases |ops|
  {
    if ops == [] then p == |v|
    else Tells(x, v, p, ops[0]) && Follows(x, v, p + ops[0].Size(), ops[1..])
  }

  predicate Tells(x: Input, v: seq<byte>, p: nat, op: Op) {
    p + op.Size() <= |v| && op.Accepts(x, v[..p]) && v[p..p + op.Size()] == op.Writes(x, v[..p])
  }

  lemma TellsPrefix(x: Input, v: seq<byte>, q: nat, p: nat, op: Op)
    requires q <= |v| && Tells(x, v[..q], p, op)
    ensures Tells(x, v, p, op)
  {
    hide Op.Accepts, Op.Writes;
    assert v[..q][..p] == v[..p] && v[..q][p..p + op.Size()] == v[p..p + op.Size()];
  }

  /** The instructions determine the window. */
  lemma {:induction false} FollowsUnique(x: Input, v: seq<byte>, w: seq<byte>, p: nat, ops: seq<Op>)
    requires p <= |v| && p <= |w| && v[..p] == w[..p] && Follows(x, v, p, ops) && Follows(x, w, p, ops)
    ensures v == w
    decreases |ops|
  {
    hide Op.Accepts, Op.Writes;
    if ops == [] {
      assert v == v[..p] && w == w[..p];
    } else {
      var q := p + ops[0].Size();
      assert v[..q] == v[..p] + v[p..q] && w[..q] == w[..p] + w[p..q];
      FollowsUnique(x, v, w, q, ops[1..]);
    }
  }

  lemma {:induction false} FollowsWithin(x: Input, v: seq<byte>, p: nat, ops: seq<Op>)
    requires Follows(x, v, p, ops)
    ensures p <= |v|
    decreases |ops|
  {
    hide Op.Accepts, Op.Writes;
    if ops != [] { FollowsWithin(x, v, p + ops[0].Size(), ops[1..]); }
  }

  /** Prepending instructions that tell the piece from `p` to `q`. */
  lemma {:induction false} FollowsConcat(x: Input, v: seq<byte>, p: nat, q: nat, a: seq<Op>, b: seq<Op>)
    requires p <= q <= |v| && Follows(x, v[..q], p, a) && Follows(x, v, q, b)
    ensures Follows(x, v, p, a + b)
    decreases |a|
  {
    hide Tells;
    if a == [] {
      assert a + b == b;
    } else {
      TellsPrefix(x, v, q, p, a[0]);
      var m := p + a[0].Size();
      assert m <= q by { FollowsWithin(x, v[..q], m, a[1..]); }
      FollowsConcat(x, v, m, q, a[1..], b);
      assert (a + b)[1..] == a[1..] + b;
    }
  }

  lemma {:induction false} DataConcat(a: seq<Op>, b: seq<Op>)
    ensures DataOf(a + b) == DataOf(a) + DataOf(b)
  {
    if a == [] {
      assert a + b == b;
    } else {
      hide Op.Data;
      DataConcat(a[1..], b);
      assert (a + b)[1..] == a[1..] + b;
      Reassociate(a[0].Data(), DataOf(a[1..]), DataOf(b));
    }
  }

  lemma Reassociate(a: seq<byte>, b: seq<byte>, c: seq<byte>)
    ensures a + (b + c) == (a + b) + c
  {
  }

  /** From `out` to `out2` by `ops`, using up the data section from `s` to `s2`. */
  predicate Derives(x: Input, s: Sections, out: seq<byte>, ops: seq<Op>, s2: Sections, out2: seq<byte>) {
    && |out| <= |out2| && out2[..|out|] == out
    && Follows(x, out2, |out|, ops)
    && s.data == DataOf(ops) + s2.data
  }

  lemma DerivesTrans(x: Input, s: Sections, out: seq<byte>, a: seq<Op>, s1: Sections, out1: seq<byte>,
                     b: seq<Op>, s2: Sections, out2: seq<byte>)
    requires Derives(x, s, out, a, s1, out1) && Derives(x, s1, out1, b, s2, out2)
    ensures Derives(x, s, out, a + b, s2, out2)
  {
    hide Follows, DataOf;
    FollowsConcat(x, out2, |out|, |out1|, a, b);
    DataConcat(a, b);
    assert out2[..|out|] == out2[..|out1|][..|out|];
  }

  lemma ExecDerives(d: InstDef, x: Input, target: nat, s: Sections, out: seq<byte>)
    requires Exec(d, x, target, s, out).Ok?
    ensures var (s', out') := Exec(d, x, target, s, out).value;
      Derives(x, s, out, OpOf(d, |x.source| + |out|, s), s', out')
  {
    hide Fetch, Op.Accepts, Op.Writes;
    if !d.ty.Noop? {
      var (op, s') := Fetch(d, |x.source| + |out|, s).value;
      var piece := op.Writes(x, out);
      var v, p := out + piece, |out|;
      assert v[..p] == out && v[p..p + op.Size()] == piece;
      assert Follows(x, v, p, [op]);
      assert DataOf([op]) == op.Data();
    }
  }

  lemma ExecCodeDerives(code: byte, x: Input, target: nat, s: Sections, out: seq<byte>)
    requires ExecCode(code, x, target, s, out).Ok?
    ensures var (s', out') := ExecCode(code, x, target, s, out).value;
      Derives(x, s, out, OpsOfCode(code, x, target, s, out), s', out')
  {
    hide Exec, Derives, OpOf, EntryOf;
    var e := EntryOf(code);
    ExecDerives(e.first, x, target, s, out);
    var (s1, out1) := Exec(e.first, x, target, s, out).value;
    ExecDerives(e.second, x, target, s1, out1);
    var (s2, out2) := Exec(e.second, x, target, s1, out1).value;
    DerivesTrans(x, s, out, OpOf(e.first, |x.source| + |out|, s), s1, out1,
                 OpOf(e.second, |x.source| + |out1|, s1), s2, out2);
  }

  lemma {:induction false} WindowDerives(x: Input, target: nat, budget: nat, s: Sections, out: seq<byte>)
    requires Window(x, target, budget, s, out).Ok?
    ensures Derives(x, s, out, Ops(x, target, budget, s, out),
                    Sections([], [], [], []), Window(x, target, budget, s, out).value)
    ensures |Window(x, target, budget, s, out).value| == target
    decreases |s.inst|
  {
    hide ExecCode, OpsOfCode, Derives;
    if s.inst == [] {
      DerivesNothing(x, s, out);
    } else {
      var s0 := s.(inst := s.inst[1..]);
      ExecCodeDerives(s.inst[0], x, target, s0, out);
      var (s', out') := ExecCode(s.inst[0], x, target, s0, out).value;
      WindowDerives(x, target, budget - 1, s', out');
      DerivesTrans(x, s0, out, OpsOfCode(s.inst[0], x, target, s0, out), s', out',
                   Ops(x, target, budget - 1, s', out'), Sections([], [], [], []),
                   Window(x, target, budget, s, out).value);
      DerivesData(x, s0, s, out, Ops(x, target, budget, s, out), Window(x, target, budget, s, out).value);
    }
  }

  lemma DerivesNothing(x: Input, s: Sections, out: seq<byte>)
    requires s.data == []
    ensures Derives(x, s, out, [], Sections([], [], [], []), out)
  {
  }

  lemma DerivesData(x: Input, s: Sections, t: Sections, out: seq<byte>, ops: seq<Op>, out2: seq<byte>)
    requires s.data == t.data && Derives(x, s, out, ops, Sections([], [], [], []), out2)
    ensures Derives(x, t, out, ops, Sections([], [], [], []), out2)
  {
    hide Follows, DataOf;
  }

  function Start(addRun: seq<byte>, inst: seq<byte>, addr: seq<byte>): Sections {
    Sections(addRun, inst, addr, [])
  }

  // ---------------------------------------------------------------------
  // When the decoder keeps to the superstring
  // ---------------------------------------------------------------------

  /** Where the address of one byte of a COPY leads, while the output fits 64 bits. */
  lemma IndexSplit(x: Input, out: seq<byte>, src: nat)
    requires |x.prev| + |out| <= U64_MAX && |x.source| <= src <= U64_MAX
    ensures x.Index(src) ==
      if |x.prev| + (src - |x.source|) < WORD then |x.prev| + (src - |x.source|)
      else |x.prev| + (src - |x.source|) - WORD
    ensures x.Within(out, src) <==> src < |x.source| + |out| || src + |x.prev| >= |x.source| + WORD
  {
  }

  lemma WithinIff(x: Input, out: seq<byte>, src: nat)
    requires |x.prev| + |out| <= U64_MAX && src <= U64_MAX
    ensures x.Within(out, src) <==> src < |x.source| + |out| || src + |x.prev| >= |x.source| + WORD
  {
    hide Input.Index;
    if src >= |x.source| { IndexSplit(x, out, src); }
  }

  /**
   A COPY of one byte or more is accepted exactly when it ends within 64 bits and either stays
   inside the superstring or starts where the index has wrapped around.
   */
  lemma CopyAccepts(x: Input, out: seq<byte>, op: Op)
    requires op.CopyOp? && op.count > 0 && |x.prev| + |out| <= U64_MAX
    ensures op.Accepts(x, out) <==>
      && op.addr + op.count <= U64_MAX
      && (op.addr + op.count <= |x.source| + |out| || op.Wraps(x))
  {
    hide Input.Index, Input.Within;
    var a, n, end := op.addr, op.count, |x.source| + |out|;
    if a + n <= U64_MAX && (a + n <= end || op.Wraps(x)) {
      forall src | a <= src < a + n
        ensures x.Within(out, src)
      {
        WithinIff(x, out, src);
      }
    } else if a + n <= U64_MAX {
      var bad := if a < end then end else a;
      WithinIff(x, out, bad);
      assert !x.Within(out, bad);
    }
  }

  /** Behind the wrap a COPY returns bytes of earlier windows. */
  lemma WrappedBytes(x: Input, out: seq<byte>, op: Op)
    requires op.Wraps(x) && |x.prev| + |out| <= U64_MAX && op.Accepts(x, out)
    ensures var from := op.addr + |x.prev| - |x.source| - WORD;
      from + op.count <= |x.prev| && op.Writes(x, out) == x.prev[from..from + op.count]
  {
    hide Input.Index;
    var from := op.addr + |x.prev| - |x.source| - WORD;
    forall i | 0 <= i < op.count
      ensures from + i < |x.prev| && op.Writes(x, out)[i] == x.prev[from + i]
    {
      IndexSplit(x, out, op.addr + i);
      assert x.Within(out, op.addr + i) && op.Writes(x, out)[i] == x.ByteAt(out, op.addr + i);
    }
    assert from + (op.count - 1) < |x.prev|;
  }

  /** Inside the superstring the decoder accepts and writes what it should. */
  lemma OpAgrees(x: Input, out: seq<byte>, op: Op)
    requires |x.prev| + |out| <= U64_MAX && op.Accepts(x, out) && !op.Wraps(x)
    ensures op.Legal(x.source + out) && op.Writes(x, out) == op.Effect(x.source + out)
  {
    hide Input.Index;
    if op.CopyOp? && op.count > 0 {
      CopyAccepts(x, out, op);
      forall i | 0 <= i < op.count
        ensures op.Writes(x, out)[i] == op.Effect(x.source + out)[i]
      {
        if op.addr + i >= |x.source| { IndexSplit(x, out, op.addr + i); }
      }
    }
  }

  /** No COPY of the list starts where the index has wrapped around. */
  predicate InReach(x: Input, ops: seq<Op>) {
    forall op :: op in ops ==> !op.Wraps(x)
  }

  /** A window whose output does not begin behind its source segment has every COPY in reach. */
  lemma {:induction false} ShortOutput(x: Input, v: seq<byte>, p: nat, ops: seq<Op>)
    requires Follows(x, v, p, ops) && |x.prev| <= |x.source|
    ensures InReach(x, ops)
    decreases |ops|
  {
    hide Op.Writes, Input.Within;
    if ops != [] {
      assert !ops[0].Wraps(x);
      ShortOutput(x, v, p + ops[0].Size(), ops[1..]);
    }
  }

  /** With every COPY in reach, following the instructions is obeying them. */
  lemma {:induction false} FollowsObeys(x: Input, v: seq<byte>, p: nat, ops: seq<Op>)
    requires Follows(x, v, p, ops) && InReach(x, ops) && |x.prev| + |v| <= U64_MAX
    ensures Obeys(x.source + v, |x.source| + p, ops)
    decreases |ops|
  {
    hide Op.Accepts, Op.Writes, Op.Legal, Op.Effect, Op.Wraps;
    if ops != [] {
      var u, q := x.source + v, |x.source| + p;
      OpAgrees(x, v[..p], ops[0]);
      assert u[..q] == x.source + v[..p] && u[q..q + ops[0].Size()] == v[p..p + ops[0].Size()];
      FollowsObeys(x, v, p + ops[0].Size(), ops[1..]);
    }
  }

  /** A list that some superstring of the window's length obeys has every COPY in reach. */
  lemma {:induction false} ObeysInReach(x: Input, u: seq<byte>, p: nat, ops: seq<Op>)
    requires Obeys(u, p, ops) && |u| + |x.prev| < |x.source| + WORD
    ensures InReach(x, ops)
    decreases |ops|
  {
    hide Op.Effect;
    if ops != [] {
      assert !ops[0].Wraps(x);
      ObeysInReach(x, u, p + ops[0].Size(), ops[1..]);
    }
  }

  /**
   Window semantics: an accepted window has exactly `target` bytes and is the only one that
   follows the decoded instruction list; the data section is exactly what the instructions use.
   The superstring of source and window obeys the list, and is the only one that does, if and
   only if no COPY starts where the index has wrapped around; none does while the earlier
   output is no longer than the source segment.
   */
  lemma WindowSemantics(x: Input, target: nat, budget: nat, addRun: seq<byte>, inst: seq<byte>, addr: seq<byte>)
    requires Window(x, target, budget, Start(addRun, inst, addr), []).Ok? && |x.prev| + target <= U64_MAX
    ensures var v := Window(x, target, budget, Start(addRun, inst, addr), []).value;
      var ops := Ops(x, target, budget, Start(addRun, inst, addr), []);
      && |v| == target && addRun == DataOf(ops) && Follows(x, v, 0, ops)
      && (forall w :: Follows(x, w, 0, ops) ==> w == v)
      && (Obeys(x.source + v, |x.source|, ops) <==> InReach(x, ops))
      && (InReach(x, ops) ==> forall u :: x.source <= u && Obeys(u, |x.source|, ops) ==> u == x.source + v)
      && (|x.prev| <= |x.source| ==> InReach(x, ops))
  {
    hide Follows, Obeys, Window, Ops, InReach;
    var s := Start(addRun, inst, addr);
    var v, ops := Window(x, target, budget, s, []).value, Ops(x, target, budget, s, []);
    WindowDerives(x, target, budget, s, []);
    assert DataOf(ops) + [] == DataOf(ops);
    forall w | Follows(x, w, 0, ops)
      ensures w == v
    {
      FollowsUnique(x, w, v, 0, ops);
    }
    if InReach(x, ops) { FollowsObeys(x, v, 0, ops); }
    if Obeys(x.source + v, |x.source|, ops) { ObeysInReach(x, x.source + v, |x.source|, ops); }
    if |x.prev| <= |x.source| { ShortOutput(x, v, 0, ops); }
    forall u | InReach(x, ops) && x.source <= u && Obeys(u, |x.source|, ops)
      ensures u == x.source + v
    {
      assert u[..|x.source|] == (x.source + v)[..|x.source|];
      ObeysUnique(u, x.source + v, |x.source|, ops);
    }
  }

  /** The acceptance of a COPY that fits its window, as the decoder decides it. */
  lemma CopyAccepted(d: InstDef, x: Input, target: nat, s: Sections, out: seq<byte>)
    requires d.ty.Copy? && Fetch(d, |x.source| + |out|, s).Ok? && |x.prev| + target <= U64_MAX
    requires |out| + Fetch(d, |x.source| + |out|, s).value.0.Size() <= target
    ensures var op := Fetch(d, |x.source| + |out|, s).value.0;
      Exec(d, x, target, s, out).Ok? <==>
        (op.count > 0 ==>
          && op.addr + op.count <= U64_MAX
          && (op.addr + op.count <= |x.source| + |out| || op.addr + |x.prev| >= |x.source| + WORD))
  {
    hide Op.Accepts, Op.Writes;
    var op := Fetch(d, |x.source| + |out|, s).value.0;
    if op.count > 0 { CopyAccepts(x, out, op); } else { EmptyCopy(x, out, op); }
  }

  lemma EmptyCopy(x: Input, out: seq<byte>, op: Op)
    requires op.CopyOp? && op.count == 0
    ensures op.Accepts(x, out)
  {
  }

  // ---------------------------------------------------------------------
  // Execution in place
  // ---------------------------------------------------------------------

  /** The three readers of a window and its address cache. */
  class Decoder {
    const data: ByteReader
    const inst: ByteReader
    const addr: ByteReader
    const cache: Cache

    constructor (addRun: seq<byte>, inst: seq<byte>, addr: seq<byte>)
      ensures Valid() && State() == Start(addRun, inst, addr)
      ensures fresh(this) && fresh(Repr())
    {
      this.data := new ByteReader(addRun);
      this.inst := new ByteReader(inst);
      this.addr := new ByteReader(addr);
      this.cache := new Cache();
    }

    ghost function Repr(): set<object> {
      {data, inst, addr, cache, cache.near, cache.same}
    }

    ghost predicate Valid()
      reads Repr()
    {
      && data != inst && data != addr && inst != addr
      && data.Valid() && inst.Valid() && addr.Valid() && cache.Valid()
    }

    ghost function State(): Sections
      reads Repr()
      requires Valid()
    {
      Sections(data.Rest(), inst.Rest(), addr.Rest(), cache.history)
    }

    method AtEnd() returns (b: bool)
      requires Valid()
      ensures b <==> State().inst == []
    {
      b := inst.IsEmpty();
    }

    /** The data and address sections are used up. */
    method Drained() returns (b: bool)
      requires Valid()
      ensures b <==> State().data == [] && State().addr == []
    {
      var d := data.IsEmpty();
      var a := addr.IsEmpty();
      b := d && a;
    }

    method NextByte() returns (b: byte)
      requires Valid() && State().inst != []
      modifies Repr()
      ensures Valid() && b == old(State()).inst[0]
      ensures State() == old(State()).(inst := old(State()).inst[1..])
    {
      var r := inst.ReadU8();
      b := r.value;
    }

    /** Reads one instruction; on a failure the whole patch is refused. */
    method FetchOp(d: InstDef, here: nat) returns (r: Result<Op, SarError>)
      requires Valid() && !d.ty.Noop?
      modifies Repr()
      ensures Valid()
      ensures match Fetch(d, here, old(State()))
        case Ok((op, s)) => r == Ok(op) && State() == s
        case Err(e) => r == Err(e)
    {
      hide TakeVarint, TakeAddress;
      var size: nat := d.size;
      if d.size == 0 {
        size :- inst.ReadVarint();
      }
      match d.ty
      case Add =>
        var bytes :- data.ReadBytes(size);
        r := Ok(AddOp(bytes));
      case Run =>
        var b :- data.ReadU8();
        r := Ok(RunOp(b, size));
      case Copy =>
        var a :- cache.DecodeAddress(d.mode, here, addr);
        cache.Update(a);
        r := Ok(CopyOp(a, size));
    }
  }

  /** Appends the effect of an instruction to the window that starts at `start` of `buf`. */
  method WriteOp(op: Op, source: seq<byte>, buf: array<byte>, start: nat, pos: nat) returns (ok: bool)
    requires start <= pos <= buf.Length
    modifies buf
    ensures ok <==> pos + op.Size() <= buf.Length && op.Accepts(InputAt(source, old(buf[..]), start), old(buf[start..pos]))
    ensures ok ==> buf[..start] == old(buf[..start])
    ensures ok ==> buf[start..pos + op.Size()] == old(buf[start..pos]) + op.Writes(InputAt(source, old(buf[..]), start), old(buf[start..pos]))
  {
    if pos + op.Size() > buf.Length { return false; }
    match op {
      case AddOp(bytes) => WriteAll(bytes, buf, start, pos);
      case RunOp(b, n) => WriteRun(b, n, buf, start, pos);
      case CopyOp(a, n) =>
        ok := WriteCopy(a, n, source, buf, start, pos);
        if !ok { return; }
    }
    return true;
  }

  method WriteAll(bytes: seq<byte>, buf: array<byte>, start: nat, pos: nat)
    requires start <= pos && pos + |bytes| <= buf.Length
    modifies buf
    ensures buf[..start] == old(buf[..start])
    ensures buf[start..pos + |bytes|] == old(buf[start..pos]) + bytes
  {
    for i := 0 to |bytes|
      invariant buf[..pos] == old(buf[..pos])
      invariant buf[pos..pos + i] == bytes[..i]
    {
      buf[pos + i] := bytes[i];
    }
    Joined(buf[..], old(buf[..]), start, pos, bytes);
  }

  method WriteRun(b: byte, n: nat, buf: array<byte>, start: nat, pos: nat)
    requires start <= pos && pos + n <= buf.Length
    modifies buf
    ensures buf[..start] == old(buf[..start])
    ensures buf[start..pos + n] == old(buf[start..pos]) + Repeat(b, n)
  {
    for i := 0 to n
      invariant buf[..pos] == old(buf[..pos])
      invariant buf[pos..pos + i] == Repeat(b, n)[..i]
    {
      buf[pos + i] := b;
    }
    Joined(buf[..], old(buf[..]), start, pos, Repeat(b, n));
  }

  /** The byte-by-byte COPY loop: it reads the buffer it is writing. */
  method WriteCopy(a: nat, n: nat, source: seq<byte>, buf: array<byte>, start: nat, pos: nat) returns (ok: bool)
    requires start <= pos && pos + n <= buf.Length
    modifies buf
    ensures ok <==> CopyOp(a, n).Accepts(InputAt(source, old(buf[..]), start), old(buf[start..pos]))
    ensures ok ==> buf[..start] == old(buf[..start])
    ensures ok ==>
      buf[start..pos + n] ==
      old(buf[start..pos]) + CopyOp(a, n).Writes(InputAt(source, old(buf[..]), start), old(buf[start..pos]))
  {
    ghost var x, out := InputAt(source, buf[..], start), buf[start..pos];
    if n > 0 && a + n > U64_MAX { return false; }
    assert x.prev + out == buf[..pos];
    for i := 0 to n
      invariant buf[..pos] == x.prev + out
      invariant forall k :: a <= k < a + i ==> x.Within(out, k) && buf[pos + (k - a)] == x.ByteAt(out, k)
    {
      var src := a + i;
      var b: byte;
      if src < |source| {
        b := source[src];
      } else {
        var at := (start + (src - |source|)) % WORD;
        assert at == x.Index(src);
        if at >= pos {
          assert !x.Within(out, src);
          return false;
        }
        b := buf[at];
        assert b == buf[..pos][at];
      }
      assert x.Within(out, src) && b == x.ByteAt(out, src);
      buf[pos + i] := b;
    }
    var piece := CopyOp(a, n).Writes(x, out);
    assert buf[pos..pos + n] == piece;
    Joined(buf[..], old(buf[..]), start, pos, piece);
    return true;
  }

  /** The input of the window that starts at `start` of a buffer. */
  function InputAt(source: seq<byte>, buf: seq<byte>, start: nat): Input
    requires start <= |buf|
  {
    Input(source, buf[..start])
  }

  lemma Joined(now: seq<byte>, was: seq<byte>, start: nat, pos: nat, piece: seq<byte>)
    requires start <= pos && pos + |piece| <= |now| == |was|
    requires now[..pos] == was[..pos] && now[pos..pos + |piece|] == piece
    ensures now[..start] == was[..start]
    ensures now[start..pos + |piece|] == was[start..pos] + piece
  {
    assert now[..start] == now[..pos][..start] && was[..start] == was[..pos][..start];
    assert now[start..pos] == now[..pos][start..] && was[start..pos] == was[..pos][start..];
    assert now[start..pos + |piece|] == now[start..pos] + now[pos..pos + |piece|];
  }

  method ExecOne(d: InstDef, dec: Decoder, source: seq<byte>, buf: array<byte>, start: nat, pos: nat)
    returns (r: Result<nat, SarError>)
    requires dec.Valid() && start <= pos <= buf.Length && buf !in dec.Repr()
    modifies buf, dec.Repr()
    ensures dec.Valid()
    ensures match Exec(d, InputAt(source, old(buf[..]), start), buf.Length - start, old(dec.State()), old(buf[start..pos]))
      case Err(e) => r == Err(e)
      case Ok((s, out)) =>
        && r == Ok(start + |out|) && start + |out| <= buf.Length
        && dec.State() == s && buf[..start] == old(buf[..start]) && buf[start..start + |out|] == out
  {
    hide Fetch, Decoder.Valid, Decoder.State;
    if d.ty.Noop? { return Ok(pos); }
    var op :- dec.FetchOp(d, |source| + (pos - start));
    var ok := WriteOp(op, source, buf, start, pos);
    if !ok { return Err(PatchFailed); }
    return Ok(pos + op.Size());
  }

  /** Both halves of a code-table entry. */
  method ExecBoth(e: Entry, ghost code: byte, dec: Decoder, source: seq<byte>, buf: array<byte>, start: nat, pos: nat)
    returns (r: Result<nat, SarError>)
    requires dec.Valid() && start <= pos <= buf.Length && buf !in dec.Repr() && e == EntryOf(code)
    modifies buf, dec.Repr()
    ensures dec.Valid()
    ensures match ExecCode(code, InputAt(source, old(buf[..]), start), buf.Length - start, old(dec.State()), old(buf[start..pos]))
      case Err(e) => r == Err(e)
      case Ok((s, out)) =>
        && r == Ok(start + |out|) && start + |out| <= buf.Length
        && dec.State() == s && buf[..start] == old(buf[..start]) && buf[start..start + |out|] == out
  {
    hide Exec, EntryOf, Decoder.Valid, Decoder.State;
    var mid :- ExecOne(e.first, dec, source, buf, start, pos);
    r := ExecOne(e.second, dec, source, buf, start, mid);
  }

  /** Reads a code and executes its entry. */
  method NextCode(table: seq<Entry>, dec: Decoder, source: seq<byte>, buf: array<byte>, start: nat, pos: nat)
    returns (r: Result<nat, SarError>)
    requires IsTable(table)
    requires dec.Valid() && start <= pos <= buf.Length && buf !in dec.Repr() && dec.State().inst != []
    modifies buf, dec.Repr()
    ensures dec.Valid() && (r.Ok? ==> |dec.State().inst| < |old(dec.State()).inst|)
    ensures var s0 := old(dec.State());
      match ExecCode(s0.inst[0], InputAt(source, old(buf[..]), start), buf.Length - start,
                     s0.(inst := s0.inst[1..]), old(buf[start..pos]))
      case Err(e) => r == Err(e)
      case Ok((s, out)) =>
        && r == Ok(start + |out|) && start + |out| <= buf.Length
        && dec.State() == s && buf[..start] == old(buf[..start]) && buf[start..start + |out|] == out
  {
    hide ExecCode, EntryOf, Decoder.Valid, Decoder.State;
    var code := dec.NextByte();
    r := ExecBoth(table[code], code, dec, source, buf, start, pos);
  }

  /** The result for the whole output, given the one for the window. */
  function Appended(output: seq<byte>, r: Result<seq<byte>, SarError>): Result<seq<byte>, SarError> {
    if r.Ok? then Ok(output + r.value) else r
  }

  /** The instruction loop and the final checks; the window is `buf[start..]`. */
  method RunWindow(table: seq<Entry>, dec: Decoder, source: seq<byte>, buf: array<byte>, start: nat, max: nat)
    returns (r: Check)
    requires IsTable(table)
    requires dec.Valid() && start <= buf.Length && buf !in dec.Repr()
    modifies buf, dec.Repr()
    ensures match Window(InputAt(source, old(buf[..]), start), buf.Length - start, max, old(dec.State()), [])
      case Ok(v) => r.Ok? && buf[..start] == old(buf[..start]) && buf[start..] == v
      case Err(e) => r == Err(e)
  {
    hide ExecCode, IsTable, Window, Decoder.Valid, Decoder.State;
    ghost var x := InputAt(source, buf[..], start);
    ghost var whole := Window(x, buf.Length - start, max, dec.State(), []);
    var pos, count := start, 0;
    assert buf[start..start] == [];
    while true
      invariant dec.Valid() && start <= pos <= buf.Length && count <= max
      invariant buf[..start] == old(buf[..start])
      invariant whole == Window(x, buf.Length - start, max - count, dec.State(), buf[start..pos])
      decreases |dec.State().inst|
    {
      WindowUnfold(x, buf.Length - start, max - count, dec.State(), buf[start..pos]);
      var done := dec.AtEnd();
      if done { break; }
      if pos >= buf.Length { return Err(PatchFailed); }
      count := count + 1;
      if count > max { return Err(LimitExceeded); }
      pos :- NextCode(table, dec, source, buf, start, pos);
    }
    var drained := dec.Drained();
    if pos != buf.Length || !drained { return Err(PatchFailed); }
    assert buf[start..] == buf[start..pos];
    return Ok(());
  }

  /** `apply_instructions`. */
  method ApplyInstructions(
    source: seq<byte>, addRun: seq<byte>, inst: seq<byte>, addr: seq<byte>, targetLen: nat,
    table: seq<Entry>, maxInstructions: nat, output: seq<byte>)
    returns (r: Result<seq<byte>, SarError>)
    requires IsTable(table)
    ensures r == Appended(output, Window(Input(source, output), targetLen, maxInstructions, Start(addRun, inst, addr), []))
  {
    hide IsTable, Window, Decoder.Valid, Decoder.State;
    var start := |output|;
    var buf := new byte[start + targetLen](i => if 0 <= i < |output| then output[i] else 0);
    assert buf[..start] == output;
    var dec := new Decoder(addRun, inst, addr);
    var _ :- RunWindow(table, dec, source, buf, start, maxInstructions);
    assert buf[..] == buf[..start] + buf[start..];
    return Ok(buf[..]);
  }

  lemma WindowUnfold(x: Input, target: nat, budget: nat, s: Sections, out: seq<byte>)
    ensures Window(x, target, budget, s, out) ==
      if s.inst == [] then if Complete(target, s, out) then Ok(out) else Err(PatchFailed)
      else if |out| >= target then Err(PatchFailed)
      else if budget == 0 then Err(LimitExceeded)
      else match ExecCode(s.inst[0], x, target, s.(inst := s.inst[1..]), out)
        case Ok((s', out')) => Window(x, target, budget - 1, s', out')
        case Err(e) => Err(e)
  {
    hide ExecCode;
  }
}
