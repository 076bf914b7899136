/** Local File Headers as a whole: printing, parsing, size, and AEAD associated data. */
module Lfh {
  import opened Bytes
  import opened Io
  import opened Flags
  import opened LfhFields
  import opened LfhIo

  /** Everything between the header size and the lengths of the names. */
  datatype Meta = Meta(core: Core, algos: Algos, fragment: Fragment, digests: Digests, posix: Posix)

  /** A header; `headerSize` is what was declared on the wire and is ignored when writing. */
  datatype Header = Header(headerSize: u32, meta: Meta, names: Names)
  {
    function Payload(): u64 {
      meta.core.payload
    }

    function Mode(): u16 {
      meta.core.mode
    }
  }

  // ---------------------------------------------------------------------
  // The fixed part
  // ---------------------------------------------------------------------

  /** The fields behind the entry mode. */
  function PutMeta(f: GlobalFlags, m: Meta): (s: seq<byte>)
    ensures |s| == 4 + 2 * SizeWidth(f) + MetaWidth(f)
  {
    PutCore(f, m.core) + (PutAlgos(f, m.algos) + (PutFragment(f, m.fragment) +
      (PutDigests(f, m.digests) + PutPosix(f, m.posix))))
  }

  function MetaWidth(f: GlobalFlags): nat {
    AlgosWidth(f) + FragmentWidth(f) + DigestsWidth(f) + PosixWidth(f)
  }

  function TakeMeta(f: GlobalFlags, mode: u16, s: seq<byte>): Parse<Meta> {
    hide TakeCore, TakeAlgos, TakeFragment, TakeDigests, TakePosix;
    var (core, s1) :- TakeCore(f, mode, s);
    var (algos, s2) :- TakeAlgos(f, s1);
    var (fragment, s3) :- TakeFragment(f, s2);
    var (digests, s4) :- TakeDigests(f, s3);
    var (posix, s5) :- TakePosix(f, s4);
    Ok((Meta(core, algos, fragment, digests, posix), s5))
  }

  function NormMeta(f: GlobalFlags, m: Meta): Meta {
    Meta(m.core, NormAlgos(f, m.algos), NormFragment(f, m.fragment), NormDigests(f, m.digests), NormPosix(f, m.posix))
  }

  lemma MetaThere(f: GlobalFlags, m: Meta, t: seq<byte>)
    requires CoreFits(f, m.core)
    ensures TakeMeta(f, m.core.mode, PutMeta(f, m) + t) == Ok((NormMeta(f, m), t))
  {
    hide TakeCore, TakeAlgos, TakeFragment, TakeDigests, TakePosix;
    hide PutCore, PutAlgos, PutFragment, PutDigests, PutPosix;
    hide NormAlgos, NormFragment, NormDigests, NormPosix;
    var s4 := PutPosix(f, m.posix) + t;
    var s3 := PutDigests(f, m.digests) + s4;
    var s2 := PutFragment(f, m.fragment) + s3;
    var s1 := PutAlgos(f, m.algos) + s2;
    CoreThere(f, m.core, s1);
    AlgosThere(f, m.algos, s2);
    FragmentThere(f, m.fragment, s3);
    DigestsThere(f, m.digests, s4);
    PosixThere(f, m.posix, t);
    Assoc5(PutCore(f, m.core), PutAlgos(f, m.algos), PutFragment(f, m.fragment),
           PutDigests(f, m.digests), PutPosix(f, m.posix), t);
  }

  lemma MetaBack(f: GlobalFlags, mode: u16, s: seq<byte>)
    requires TakeMeta(f, mode, s).Ok?
    ensures var (m, t) := TakeMeta(f, mode, s).value;
      m.core.mode == mode && CoreFits(f, m.core) && s == PutMeta(f, m) + t
  {
    hide TakeCore, TakeAlgos, TakeFragment, TakeDigests, TakePosix;
    hide PutCore, PutAlgos, PutFragment, PutDigests, PutPosix;
    var (m, t) := TakeMeta(f, mode, s).value;
    CoreBack(f, mode, s);
    var s1 := TakeCore(f, mode, s).value.1;
    AlgosBack(f, s1);
    var s2 := TakeAlgos(f, s1).value.1;
    FragmentBack(f, s2);
    var s3 := TakeFragment(f, s2).value.1;
    DigestsBack(f, s3);
    var s4 := TakeDigests(f, s3).value.1;
    PosixBack(f, s4);
    Assoc5(PutCore(f, m.core), PutAlgos(f, m.algos), PutFragment(f, m.fragment),
           PutDigests(f, m.digests), PutPosix(f, m.posix), t);
  }

  // ---------------------------------------------------------------------
  // Lengths and variable-length fields
  // ---------------------------------------------------------------------

  /** The declared lengths of name, path, sparse map and FEC value. */
  datatype Lens = Lens(name: nat, path: nat, sparse: nat, fec: nat)
  {
    function Total(): nat {
      name + path + sparse + fec
    }
  }

  function On(on: bool, s: seq<byte>): seq<byte> {
    if on then s else []
  }

  /** The lengths in front of FEC Size. */
  function PutLens(f: GlobalFlags, n: Names): (s: seq<byte>)
    ensures |s| == 2 + Width(f.hasPath, 2) + Width(f.sparse, 4)
  {
    LE(|n.name|, 2) + (OptInt(f.hasPath, 2, Some(|n.path|)) + OptInt(f.sparse, 4, Some(|n.sparseMap|)))
  }

  function PutFecLen(f: GlobalFlags, n: Names): (s: seq<byte>)
    ensures |s| == Width(f.selectiveFec, 3)
  {
    OptInt(f.selectiveFec, 3, Some(|n.fecValue|))
  }

  /** The names and the sparse map; the FEC value follows. */
  function PutBodies(f: GlobalFlags, n: Names): seq<byte> {
    n.name + (On(f.hasPath, n.path) + On(f.sparse, n.sparseMap))
  }

  function NormNames(f: GlobalFlags, n: Names): Names {
    Names(n.name, On(f.hasPath, n.path), On(f.sparse, n.sparseMap), On(f.selectiveFec, n.fecValue))
  }

  predicate NamesFit(f: GlobalFlags, n: Names) {
    && |n.name| <= U16_MAX && |n.path| <= U16_MAX && |n.sparseMap| <= U32_MAX && |n.fecValue| <= U32_MAX
    && (f.selectiveFec ==> |n.fecValue| <= U24_MAX)
  }

  function LensOf(n: Names): Lens {
    Lens(|n.name|, |n.path|, |n.sparseMap|, |n.fecValue|)
  }

  function TakeLens(f: GlobalFlags, s: seq<byte>): (r: Parse<Lens>) {
    hide TakeInt, TakeOptInt;
    var (name, s1) :- TakeInt(2, s);
    var (path, s2) :- TakeOptInt(f.hasPath, 2, s1);
    var (sparse, s3) :- TakeOptInt(f.sparse, 4, s2);
    var (fec, s4) :- TakeOptInt(f.selectiveFec, 3, s3);
    Ok((Lens(name, path.GetOr(0), sparse.GetOr(0), fec.GetOr(0)), s4))
  }

  /** The four fields of exactly the declared lengths. */
  function Cut(l: Lens, s: seq<byte>): (n: Names)
    requires |s| == l.Total()
    ensures LensOf(n) == l
  {
    Names(s[..l.name], s[l.name..l.name + l.path],
          s[l.name + l.path..l.name + l.path + l.sparse], s[l.name + l.path + l.sparse..])
  }

  lemma LensThere(f: GlobalFlags, n: Names, t: seq<byte>)
    requires NamesFit(f, n)
    ensures TakeLens(f, PutLens(f, n) + (PutFecLen(f, n) + t)) == Ok((LensOf(NormNames(f, n)), t))
  {
    hide TakeInt, TakeOptInt, LE, OptInt;
    Widths();
    var s3 := PutFecLen(f, n) + t;
    var s2 := OptInt(f.sparse, 4, Some(|n.sparseMap|)) + s3;
    var s1 := OptInt(f.hasPath, 2, Some(|n.path|)) + s2;
    IntThere(2, |n.name|, s1);
    OptIntThere(f.hasPath, 2, Some(|n.path|), s2);
    OptIntThere(f.sparse, 4, Some(|n.sparseMap|), s3);
    OptIntThere(f.selectiveFec, 3, if f.selectiveFec then Some(|n.fecValue|) else None, t);
    OptIntOff(f.selectiveFec, 3, Some(|n.fecValue|));
    Assoc3(LE(|n.name|, 2), OptInt(f.hasPath, 2, Some(|n.path|)), OptInt(f.sparse, 4, Some(|n.sparseMap|)), s3);
  }

  lemma Assoc3(a: seq<byte>, b: seq<byte>, c: seq<byte>, t: seq<byte>)
    ensures (a + (b + c)) + t == a + (b + (c + t))
  {
    Assoc(a, b + c, t);
    Assoc(b, c, t);
  }

  lemma LensBack(f: GlobalFlags, s: seq<byte>, n: Names)
    requires TakeLens(f, s).Ok? && LensOf(n) == TakeLens(f, s).value.0
    ensures s == PutLens(f, n) + (PutFecLen(f, n) + TakeLens(f, s).value.1)
    ensures NamesFit(f, n)
    ensures (f.hasPath || n.path == []) && (f.sparse || n.sparseMap == []) && (f.selectiveFec || n.fecValue == [])
  {
    hide TakeInt, TakeOptInt, LE, OptInt;
    Widths();
    var t := TakeLens(f, s).value.1;
    IntBack(2, s);
    var s1 := TakeInt(2, s).value.1;
    OptIntBack(f.hasPath, 2, s1);
    var s2 := TakeOptInt(f.hasPath, 2, s1).value.1;
    OptIntBack(f.sparse, 4, s2);
    var s3 := TakeOptInt(f.sparse, 4, s2).value.1;
    OptIntBack(f.selectiveFec, 3, s3);
    OptIntOff(f.hasPath, 2, Some(|n.path|));
    OptIntOff(f.sparse, 4, Some(|n.sparseMap|));
    OptIntOff(f.selectiveFec, 3, Some(|n.fecValue|));
    Assoc3(LE(|n.name|, 2), OptInt(f.hasPath, 2, Some(|n.path|)), OptInt(f.sparse, 4, Some(|n.sparseMap|)), s3);
  }

  lemma CutJoins(l: Lens, s: seq<byte>)
    requires |s| == l.Total()
    ensures var n := Cut(l, s); s == n.name + (n.path + n.sparseMap) + n.fecValue
  {
  }

  lemma CutPrinted(f: GlobalFlags, n: Names)
    ensures var m := NormNames(f, n); var s := PutBodies(f, n) + m.fecValue;
      |s| == LensOf(m).Total() && Cut(LensOf(m), s) == m
  {
    var m := NormNames(f, n);
    CutJoined(m.name, m.path, m.sparseMap, m.fecValue);
  }

  lemma CutJoined(a: seq<byte>, b: seq<byte>, c: seq<byte>, d: seq<byte>)
    ensures Cut(Lens(|a|, |b|, |c|, |d|), a + (b + c) + d) == Names(a, b, c, d)
  {
  }

  // ---------------------------------------------------------------------
  // Size
  // ---------------------------------------------------------------------

  /** `compute_lfh_size`, as the sum it accumulates. */
  function Size(f: GlobalFlags, h: Header): nat {
    4 + 2 + 2 + 2 + SizeWidth(f) + SizeWidth(f) + MetaWidth(f)
    + 2 + Width(f.hasPath, 2) + Width(f.sparse, 4) + Width(f.selectiveFec, 3)
    + |h.names.name| + |On(f.hasPath, h.names.path)| + |On(f.sparse, h.names.sparseMap)|
    + |On(f.selectiveFec, h.names.fecValue)|
  }

  /** Every header has at least 20 bytes. */
  lemma AtLeastTwenty(f: GlobalFlags, h: Header)
    ensures Size(f, h) >= 20
  {
    hide AlgosWidth, FragmentWidth, DigestsWidth, PosixWidth;
  }

  // ---------------------------------------------------------------------
  // Printing
  // ---------------------------------------------------------------------

  /** What lies in front of FEC Size. */
  function Front(f: GlobalFlags, h: Header, size: nat): (s: seq<byte>)
    ensures |s| == 6 + (4 + 2 * SizeWidth(f) + MetaWidth(f)) + (2 + Width(f.hasPath, 2) + Width(f.sparse, 4))
  {
    hide PutMeta, PutLens, LE;
    LE(size, 4) + (LE(h.Mode(), 2) + (PutMeta(f, h.meta) + PutLens(f, h.names)))
  }

  function Wire(f: GlobalFlags, h: Header): (s: seq<byte>)
    ensures |s| == Size(f, h)
  {
    hide Front, PutFecLen, MetaWidth;
    Front(f, h, Size(f, h)) + (PutFecLen(f, h.names) + (PutBodies(f, h.names) + On(f.selectiveFec, h.names.fecValue)))
  }

  /** `write_lfh`. */
  function PrintHeader(f: GlobalFlags, h: Header): Result<seq<byte>, SarError> {
    var _ :- ValidateMode(f, h.Mode());
    if Size(f, h) > U32_MAX then Err(Overflow)
    else if |h.names.name| > U16_MAX || |h.names.path| > U16_MAX
         || |h.names.sparseMap| > U32_MAX || |h.names.fecValue| > U32_MAX then Err(Overflow)
    else if !CoreFits(f, h.meta.core) then Err(Overflow)
    else if f.selectiveFec && |h.names.fecValue| > U24_MAX then Err(InvalidLength)
    else Ok(Wire(f, h))
  }

  // ---------------------------------------------------------------------
  // Parsing
  // ---------------------------------------------------------------------

  predicate LensAdmitted(l: Lens, lim: Limits) {
    l.name + l.path <= lim.maxPath && l.sparse <= lim.maxSparseMap && l.fec <= lim.maxFecValue
  }

  /** The header behind its size field; `s` is exactly the rest of the declared header. */
  function ParseRest(f: GlobalFlags, size: u32, s: seq<byte>, lim: Limits): Result<Header, SarError> {
    hide TakeInt, TakeMeta, TakeLens, Cut, MetaWidth, ValidateMode;
    Widths();
    var (mode, s1) :- TakeInt(2, s);
    var _ :- ValidateMode(f, mode);
    var (meta, s2) :- TakeMeta(f, mode, s1);
    var (lens, s3) :- TakeLens(f, s2);
    if !LensAdmitted(lens, lim) then Err(LimitExceeded)
    else if |s3| != lens.Total() then Err(InvalidLength)
    else
      var h := Header(size, meta, Cut(lens, s3));
      if Size(f, h) == size then Ok(h) else Err(InvalidLength)
  }

  /** `parse_lfh`: the header and its length. */
  function ParseHeader(f: GlobalFlags, input: seq<byte>, lim: Limits): (r: Result<(Header, nat), SarError>)
    ensures r.Ok? ==> r.value.1 == r.value.0.headerSize <= |input|
  {
    hide TakeInt, ParseRest;
    Widths();
    var (size, _) :- TakeInt(4, input);
    if size > lim.maxLfh then Err(LimitExceeded)
    else if size > |input| then Err(Truncated)
    else
      var (_, s) :- TakeInt(4, input[..size]);
      var h :- ParseRest(f, size, s, lim);
      if h.headerSize == size then Ok((h, size)) else Err(InvalidLength)
  }

  // ---------------------------------------------------------------------
  // Parse and print are inverse
  // ---------------------------------------------------------------------

  function Norm(f: GlobalFlags, h: Header): Header
    requires Size(f, h) <= U32_MAX
  {
    Header(Size(f, h), NormMeta(f, h.meta), NormNames(f, h.names))
  }

  lemma PrintedParts(f: GlobalFlags, h: Header)
    ensures var n := h.names;
      Wire(f, h) == LE(Size(f, h), 4) + (LE(h.Mode(), 2) + (PutMeta(f, h.meta) +
        (PutLens(f, n) + (PutFecLen(f, n) + (PutBodies(f, n) + On(f.selectiveFec, n.fecValue))))))
  {
    hide LE, PutMeta, PutLens, PutFecLen, PutBodies, Size;
    var n := h.names;
    Assoc4(LE(Size(f, h), 4), LE(h.Mode(), 2), PutMeta(f, h.meta), PutLens(f, n),
           PutFecLen(f, n) + (PutBodies(f, n) + On(f.selectiveFec, n.fecValue)));
  }

  lemma RestThere(f: GlobalFlags, h: Header, lim: Limits)
    requires PrintHeader(f, h).Ok? && LensAdmitted(LensOf(NormNames(f, h.names)), lim)
    ensures var n := h.names;
      var s := LE(h.Mode(), 2) + (PutMeta(f, h.meta) +
        (PutLens(f, n) + (PutFecLen(f, n) + (PutBodies(f, n) + On(f.selectiveFec, n.fecValue)))));
      ParseRest(f, Size(f, h), s, lim) == Ok(Norm(f, h))
  {
    hide LE, TakeInt, TakeMeta, TakeLens, Cut, PutMeta, PutLens, PutFecLen, PutBodies, MetaWidth, NormMeta, Wire,
         ValidateMode;
    var n := h.names;
    var s4 := PutBodies(f, n) + On(f.selectiveFec, n.fecValue);
    var s3 := PutLens(f, n) + (PutFecLen(f, n) + s4);
    Widths();
    IntThere(2, h.Mode(), PutMeta(f, h.meta) + s3);
    MetaThere(f, h.meta, s3);
    LensThere(f, n, s4);
    CutPrinted(f, n);
  }

  /** Reading inverts printing for every flag combination, whatever follows the header. */
  lemma ParsePrint(f: GlobalFlags, h: Header, t: seq<byte>, lim: Limits)
    requires PrintHeader(f, h).Ok? && Size(f, h) <= lim.maxLfh && LensAdmitted(LensOf(NormNames(f, h.names)), lim)
    ensures ParseHeader(f, PrintHeader(f, h).value + t, lim) == Ok((Norm(f, h), |PrintHeader(f, h).value|))
  {
    hide LE, TakeInt, ParseRest, PutMeta, PutLens, PutFecLen, PutBodies, Size, Wire, NormMeta, NormNames, ValidateMode;
    var b, size := Wire(f, h), Size(f, h);
    Widths();
    PrintedParts(f, h);
    var s := b[4..];
    assert |LE(size, 4)| == 4;
    assert b == LE(size, 4) + s;
    assert b + t == LE(size, 4) + (s + t);
    IntThere(4, size, s + t);
    IntThere(4, size, s);
    assert (b + t)[..size] == b;
    RestThere(f, h, lim);
  }

  lemma RestBack(f: GlobalFlags, size: u32, s: seq<byte>, lim: Limits)
    requires ParseRest(f, size, s, lim).Ok?
    ensures var h := ParseRest(f, size, s, lim).value; var n := h.names;
      && h.headerSize == size == Size(f, h) && ValidateMode(f, h.Mode()).Ok? && CoreFits(f, h.meta.core) && NamesFit(f, n)
      && s == LE(h.Mode(), 2) + (PutMeta(f, h.meta) +
        (PutLens(f, n) + (PutFecLen(f, n) + (PutBodies(f, n) + On(f.selectiveFec, n.fecValue)))))
  {
    hide LE, TakeInt, TakeMeta, TakeLens, Cut, PutMeta, PutLens, PutFecLen, MetaWidth, ValidateMode;
    Widths();
    IntBack(2, s);
    var (mode, s1) := TakeInt(2, s).value;
    MetaBack(f, mode, s1);
    var (meta, s2) := TakeMeta(f, mode, s1).value;
    var (lens, s3) := TakeLens(f, s2).value;
    LensBack(f, s2, Cut(lens, s3));
    CutJoins(lens, s3);
  }

  /** Printing inverts reading: an accepted header is printed back byte for byte. */
  lemma PrintParse(f: GlobalFlags, input: seq<byte>, lim: Limits)
    requires ParseHeader(f, input, lim).Ok?
    ensures var (h, n) := ParseHeader(f, input, lim).value;
      n == Size(f, h) >= 20 && PrintHeader(f, h) == Ok(input[..n])
  {
    hide LE, TakeInt, ParseRest, PutMeta, PutLens, PutFecLen, PutBodies, Size, Wire, ValidateMode;
    Widths();
    var (h, n) := ParseHeader(f, input, lim).value;
    var b := input[..n];
    IntBack(4, input);
    IntBack(4, b);
    IntPrefix(4, input, n);
    RestBack(f, n, TakeInt(4, b).value.1, lim);
    PrintedParts(f, h);
    AtLeastTwenty(f, h);
  }

  lemma RestAdmitted(f: GlobalFlags, size: u32, s: seq<byte>, lim: Limits)
    requires ParseRest(f, size, s, lim).Ok?
    ensures var h := ParseRest(f, size, s, lim).value; LensAdmitted(LensOf(h.names), lim) && NormNames(f, h.names) == h.names
  {
    hide TakeInt, TakeMeta, Cut, PutMeta, PutLens, PutFecLen, MetaWidth, ValidateMode;
    Widths();
    var (mode, s1) := TakeInt(2, s).value;
    var (meta, s2) := TakeMeta(f, mode, s1).value;
    hide TakeLens;
    var (lens, s3) := TakeLens(f, s2).value;
    LensBack(f, s2, Cut(lens, s3));
  }

  lemma ParsedAdmitted(f: GlobalFlags, input: seq<byte>, lim: Limits)
    requires ParseHeader(f, input, lim).Ok?
    ensures var h := ParseHeader(f, input, lim).value.0;
      Size(f, h) <= lim.maxLfh && LensAdmitted(LensOf(h.names), lim) && NormNames(f, h.names) == h.names
  {
    hide LE, FromLE, ParseRest, Size, LensAdmitted, NormNames, Wire, PrintHeader;
    PrintParse(f, input, lim);
    Widths();
    var n := ParseHeader(f, input, lim).value.1;
    RestAdmitted(f, n, TakeInt(4, input[..n]).value.1, lim);
  }

  /** An accepted header respects the limits and is its own normal form. */
  lemma ParsedNormal(f: GlobalFlags, input: seq<byte>, lim: Limits)
    requires ParseHeader(f, input, lim).Ok?
    ensures var h := ParseHeader(f, input, lim).value.0;
      Size(f, h) <= lim.maxLfh && Size(f, h) <= U32_MAX && LensAdmitted(LensOf(h.names), lim) && Norm(f, h) == h
  {
    hide ParseHeader, Size, LensAdmitted, NormNames, NormMeta, PrintHeader;
    ParsedAdmitted(f, input, lim);
    var (h, n) := ParseHeader(f, input, lim).value;
    PrintParse(f, input, lim);
    var b := input[..n];
    assert b + [] == b;
    ParsePrint(f, h, [], lim);
    Reparse(f, input, n, lim);
  }

  /** Cutting behind the header changes nothing. */
  lemma Reparse(f: GlobalFlags, input: seq<byte>, n: nat, lim: Limits)
    requires ParseHeader(f, input, lim).Ok? && n == ParseHeader(f, input, lim).value.1
    ensures ParseHeader(f, input[..n], lim) == ParseHeader(f, input, lim)
  {
    hide ParseRest, FromLE;
    assert input[..n][..4] == input[..4];
    assert input[..n][..n] == input[..n];
  }

  /** The length of an accepted header is its first field. */
  lemma SizeField(f: GlobalFlags, input: seq<byte>, lim: Limits)
    requires ParseHeader(f, input, lim).Ok?
    ensures |input| >= 4 && ParseHeader(f, input, lim).value.1 == FromLE(input[..4])
  {
    hide ParseRest, FromLE;
  }

  lemma IntPrefix(w: nat, s: seq<byte>, n: nat)
    requires n <= |s| && TakeInt(w, s[..n]).Ok?
    ensures TakeInt(w, s).Ok? && TakeInt(w, s).value.0 == TakeInt(w, s[..n]).value.0
  {
    assert s[..n][..w] == s[..w];
  }

  /** The two size checks behind the trailing-length check can never fail. */
  lemma SizeCheckRedundant(f: GlobalFlags, s: seq<byte>, mode: u16, size: u32)
    requires |s| + 6 == size && TakeMeta(f, mode, s).Ok?
    requires TakeLens(f, TakeMeta(f, mode, s).value.1).Ok?
    ensures var (meta, s2) := TakeMeta(f, mode, s).value; var (lens, s3) := TakeLens(f, s2).value;
      |s3| == lens.Total() ==> Size(f, Header(size, meta, Cut(lens, s3))) == size
  {
    hide TakeMeta, TakeLens, Cut, PutMeta, PutLens, PutFecLen, MetaWidth;
    MetaBack(f, mode, s);
    var (meta, s2) := TakeMeta(f, mode, s).value;
    var (lens, s3) := TakeLens(f, s2).value;
    if |s3| == lens.Total() { LensBack(f, s2, Cut(lens, s3)); }
  }

  // ---------------------------------------------------------------------
  // Associated data
  // ---------------------------------------------------------------------

  /** `fec_size_field_offset`, as the sum it accumulates. */
  function FecOffset(f: GlobalFlags): nat {
    4 + 2 + 2 + 2 + SizeWidth(f) + SizeWidth(f) + MetaWidth(f) + 2 + Width(f.hasPath, 2) + Width(f.sparse, 4)
  }

  /** `lfh_bytes_for_aad`: the header without FEC Size and FEC Value when selective FEC is in use. */
  function Aad(f: GlobalFlags, lfh: seq<byte>, fecAlgo: byte, fecLen: nat): Result<seq<byte>, SarError> {
    if !f.selectiveFec || fecAlgo == 0 then Ok(lfh)
    else if fecLen > |lfh| || FecOffset(f) + 3 > |lfh| - fecLen then Err(InvalidLength)
    else Ok(lfh[..FecOffset(f)] + lfh[FecOffset(f) + 3..|lfh| - fecLen])
  }

  /** FEC Size is written exactly at the separately computed offset, and FEC Value ends the header. */
  lemma FecFieldsAt(f: GlobalFlags, h: Header)
    requires f.selectiveFec
    ensures var b, o, n := Wire(f, h), FecOffset(f), h.names;
      && o + 3 + |n.fecValue| <= |b|
      && b[..o] == Front(f, h, Size(f, h)) && b[o..o + 3] == LE(|n.fecValue|, 3)
      && b[o + 3..|b| - |n.fecValue|] == PutBodies(f, n) && b[|b| - |n.fecValue|..] == n.fecValue
  {
    hide Front, PutBodies, MetaWidth, LE;
    var n := h.names;
    Pieces(Front(f, h, Size(f, h)), PutFecLen(f, n), PutBodies(f, n), n.fecValue);
  }

  lemma Pieces(a: seq<byte>, b: seq<byte>, c: seq<byte>, d: seq<byte>)
    ensures var s := a + (b + (c + d)); var p, q, r := |a|, |a| + |b|, |a| + |b| + |c|;
      |s| == r + |d| && s[..p] == a && s[p..q] == b && s[q..r] == c && s[r..] == d
  {
  }

  /** What the associated data of a printed header is. */
  lemma AadPrinted(f: GlobalFlags, h: Header, algo: byte)
    ensures Aad(f, Wire(f, h), algo, |On(f.selectiveFec, h.names.fecValue)|) ==
      Ok(if f.selectiveFec && algo != 0 then Front(f, h, Size(f, h)) + PutBodies(f, h.names) else Wire(f, h))
  {
    hide Wire, Front, PutBodies, Size, FecOffset, LE;
    if f.selectiveFec && algo != 0 {
      FecFieldsAt(f, h);
      AadOf(f, Wire(f, h), algo, |h.names.fecValue|);
    }
  }

  lemma AadOf(f: GlobalFlags, b: seq<byte>, algo: byte, n: nat)
    requires f.selectiveFec && algo != 0 && FecOffset(f) + 3 + n <= |b|
    ensures Aad(f, b, algo, n) == Ok(b[..FecOffset(f)] + b[FecOffset(f) + 3..|b| - n])
  {
    hide FecOffset;
  }

  function WithFec(h: Header, v: seq<byte>): Header {
    h.(names := h.names.(fecValue := v))
  }

  /**
   The associated data that the writer builds from the provisional header with a zero-filled FEC
   value, and the data that a reader rebuilds from the final header: they agree exactly when the
   FEC fields are excluded or the final value is itself all zeros.
   */
  lemma AadAgreement(f: GlobalFlags, h: Header, v: seq<byte>, t: seq<byte>, lim: Limits)
    requires PrintHeader(f, WithFec(h, Zeros(|v|))).Ok? && Size(f, WithFec(h, v)) <= lim.maxLfh
    requires LensAdmitted(LensOf(NormNames(f, WithFec(h, v).names)), lim)
    ensures PrintHeader(f, WithFec(h, v)).Ok?
    ensures ParseHeader(f, PrintHeader(f, WithFec(h, v)).value + t, lim).Ok?
    ensures var provisional, final := PrintHeader(f, WithFec(h, Zeros(|v|))).value, PrintHeader(f, WithFec(h, v)).value;
      var (read, n) := ParseHeader(f, final + t, lim).value;
      var algo := h.meta.algos.fec.GetOr(0);
      Aad(f, provisional, algo, |On(f.selectiveFec, v)|)
        == Aad(f, (final + t)[..n], read.meta.algos.fec.GetOr(0), |read.names.fecValue|)
      <==> !f.selectiveFec || algo != 0 || v == Zeros(|v|)
  {
    hide ParseHeader, Aad, Wire, Front, PutBodies, MetaWidth, ValidateMode, NormFragment, NormDigests, NormPosix;
    var p, q := WithFec(h, Zeros(|v|)), WithFec(h, v);
    var algo := h.meta.algos.fec.GetOr(0);
    ParsePrint(f, q, t, lim);
    assert (Wire(f, q) + t)[..|Wire(f, q)|] == Wire(f, q);
    var readAlgo := NormAlgos(f, h.meta.algos).fec.GetOr(0);
    AadPrinted(f, p, algo);
    AadPrinted(f, q, readAlgo);
    FrontIgnoresFec(f, h, v);
    WireDiffers(f, h, v);
  }

  lemma FrontIgnoresFec(f: GlobalFlags, h: Header, v: seq<byte>)
    ensures var p, q := WithFec(h, Zeros(|v|)), WithFec(h, v);
      Size(f, p) == Size(f, q) && PutBodies(f, p.names) == PutBodies(f, q.names)
      && Front(f, p, Size(f, p)) == Front(f, q, Size(f, q))
  {
    hide LE, PutMeta, MetaWidth;
  }

  lemma WireDiffers(f: GlobalFlags, h: Header, v: seq<byte>)
    ensures var p, q := WithFec(h, Zeros(|v|)), WithFec(h, v);
      Wire(f, p) == Wire(f, q) <==> !f.selectiveFec || v == Zeros(|v|)
  {
    hide Front, PutBodies, MetaWidth, LE, FecOffset;
    var p, q := WithFec(h, Zeros(|v|)), WithFec(h, v);
    FrontIgnoresFec(f, h, v);
    if f.selectiveFec {
      FecFieldsAt(f, p);
      FecFieldsAt(f, q);
    }
  }

  // ---------------------------------------------------------------------
  // The imperative forms
  // ---------------------------------------------------------------------

  lemma WidthParts(on: bool)
    ensures Width(on, 20) == Width(on, 4) + Width(on, 4) + Width(on, 8) + Width(on, 4)
    ensures Width(on, 24) == Width(on, 8) + Width(on, 8) + Width(on, 8)
  {
  }

  /** The group widths, field by field in the order in which the size functions add them. */
  lemma MetaWidthParts(f: GlobalFlags)
    ensures MetaWidth(f) ==
      (Width(f.compressed, 1) + Width(f.delta, 1) + Width(f.encrypted, 1))
      + (Width(f.cdc, 1) + Width(f.selectiveFec, 1) + Width(f.fragmentation, 20))
      + (Width(f.encrypted, 24) + Width(f.delta, 32) + Width(f.fileCrc, 4) + Width(f.dedup, 32))
      + (Width(f.uidGid, 4) + Width(f.time, 24) + Width(f.perms, 2))
  {
    WidthParts(f.fragmentation);
    WidthParts(f.time);
    hide Width;
  }

  method ComputeSize(f: GlobalFlags, h: Header) returns (size: nat)
    ensures size == Size(f, h)
  {
    MetaWidthParts(f);
    hide Width, MetaWidth, SizeWidth;
    var sizeLen := SizeWidth(f);
    size := 4 + 2 + 2 + 2;
    size := size + sizeLen + sizeLen;
    size := size + Width(f.compressed, 1) + Width(f.delta, 1) + Width(f.encrypted, 1);
    size := size + Width(f.cdc, 1) + Width(f.selectiveFec, 1) + Width(f.fragmentation, 20);
    size := size + Width(f.encrypted, 24) + Width(f.delta, 32) + Width(f.fileCrc, 4) + Width(f.dedup, 32);
    size := size + Width(f.uidGid, 4) + Width(f.time, 24) + Width(f.perms, 2);
    size := size + 2 + Width(f.hasPath, 2) + Width(f.sparse, 4) + Width(f.selectiveFec, 3);
    size := size + |h.names.name|;
    if f.hasPath { size := size + |h.names.path|; }
    if f.sparse { size := size + |h.names.sparseMap|; }
    if f.selectiveFec { size := size + |h.names.fecValue|; }
  }

  method FecSizeFieldOffset(f: GlobalFlags) returns (off: nat)
    ensures off == FecOffset(f)
  {
    MetaWidthParts(f);
    hide Width, MetaWidth, SizeWidth;
    var sizeLen := SizeWidth(f);
    off := 4 + 2 + 2 + 2 + sizeLen + sizeLen;
    off := off + Width(f.compressed, 1) + Width(f.delta, 1) + Width(f.encrypted, 1);
    off := off + Width(f.cdc, 1) + Width(f.selectiveFec, 1) + Width(f.fragmentation, 20);
    off := off + Width(f.encrypted, 24) + Width(f.delta, 32) + Width(f.fileCrc, 4) + Width(f.dedup, 32);
    off := off + Width(f.uidGid, 4) + Width(f.time, 24) + Width(f.perms, 2);
    off := off + 2 + Width(f.hasPath, 2) + Width(f.sparse, 4);
  }

  method BytesForAad(f: GlobalFlags, lfh: seq<byte>, fecAlgo: byte, fecLen: nat) returns (r: Result<seq<byte>, SarError>)
    ensures r == Aad(f, lfh, fecAlgo, fecLen)
  {
    hide FecOffset;
    if !f.selectiveFec || fecAlgo == 0 { return Ok(lfh); }
    var off := FecSizeFieldOffset(f);
    var end := off + 3;
    if fecLen > |lfh| { return Err(InvalidLength); }
    var valueStart := |lfh| - fecLen;
    if end > valueStart { return Err(InvalidLength); }
    return Ok(lfh[..off] + lfh[end..valueStart]);
  }

  method WriteMeta(f: GlobalFlags, m: Meta, w: BinaryWriter)
    modifies w
    ensures w.buf == old(w.buf) + PutMeta(f, m)
  {
    hide PutCore, PutAlgos, PutFragment, PutDigests, PutPosix;
    WriteCore(f, m.core, w);
    WriteAlgos(f, m.algos, w);
    WriteFragment(f, m.fragment, w);
    WriteDigests(f, m.digests, w);
    WritePosix(f, m.posix, w);
    Append5(old(w.buf), PutCore(f, m.core), PutAlgos(f, m.algos), PutFragment(f, m.fragment),
            PutDigests(f, m.digests), PutPosix(f, m.posix));
  }

  method WriteNames(f: GlobalFlags, n: Names, w: BinaryWriter)
    modifies w
    ensures w.buf == old(w.buf) + PutLens(f, n) + (PutFecLen(f, n) + (PutBodies(f, n) + On(f.selectiveFec, n.fecValue)))
  {
    hide LE, OptInt;
    w.WriteInt(|n.name|, 2);
    w.WriteOptInt(f.hasPath, 2, Some(|n.path|));
    w.WriteOptInt(f.sparse, 4, Some(|n.sparseMap|));
    AssocLens(old(w.buf), LE(|n.name|, 2), OptInt(f.hasPath, 2, Some(|n.path|)), OptInt(f.sparse, 4, Some(|n.sparseMap|)));
    ghost var head := w.buf;
    w.WriteOptInt(f.selectiveFec, 3, Some(|n.fecValue|));
    w.WriteBytes(n.name);
    w.WriteBytes(On(f.hasPath, n.path));
    w.WriteBytes(On(f.sparse, n.sparseMap));
    w.WriteBytes(On(f.selectiveFec, n.fecValue));
    Append5(head, PutFecLen(f, n), n.name, On(f.hasPath, n.path), On(f.sparse, n.sparseMap), On(f.selectiveFec, n.fecValue));
    Assoc3(n.name, On(f.hasPath, n.path), On(f.sparse, n.sparseMap), On(f.selectiveFec, n.fecValue));
  }

  lemma AssocLens(p: seq<byte>, a: seq<byte>, b: seq<byte>, c: seq<byte>)
    ensures p + a + b + c == p + (a + (b + c))
  {
    Assoc(p + a, b, c);
    Assoc(p, a, b + c);
  }

  /** `write_lfh`. */
  method WriteLfh(f: GlobalFlags, h: Header) returns (r: Result<seq<byte>, SarError>)
    ensures r == PrintHeader(f, h)
  {
    hide LE, PutMeta, PutLens, PutFecLen, PutBodies, MetaWidth, Size, ValidateMode;
    var _ :- ValidateMode(f, h.Mode());
    var size := ComputeSize(f, h);
    if size > U32_MAX { return Err(Overflow); }
    if |h.names.name| > U16_MAX || |h.names.path| > U16_MAX { return Err(Overflow); }
    if |h.names.sparseMap| > U32_MAX || |h.names.fecValue| > U32_MAX { return Err(Overflow); }
    if !CoreFits(f, h.meta.core) { return Err(Overflow); }
    if f.selectiveFec && |h.names.fecValue| > U24_MAX { return Err(InvalidLength); }
    var w := new BinaryWriter();
    w.WriteInt(size, 4);
    w.WriteInt(h.Mode(), 2);
    WriteMeta(f, h.meta, w);
    WriteNames(f, h.names, w);
    Append4([], LE(size, 4), LE(h.Mode(), 2), PutMeta(f, h.meta), PutLens(f, h.names));
    assert [] + Front(f, h, size) == Front(f, h, size);
    return Ok(w.buf);
  }

  method ReadMeta(f: GlobalFlags, mode: u16, c: ParseCursor) returns (r: Result<Meta, SarError>)
    requires c.Valid()
    modifies c
    ensures c.Valid() && Agrees(r, c.Rest(), TakeMeta(f, mode, old(c.Rest())))
  {
    hide TakeCore, TakeAlgos, TakeFragment, TakeDigests, TakePosix, ParseCursor.Valid, ParseCursor.Rest;
    var core :- ReadCore(f, mode, c);
    var algos :- ReadAlgos(f, c);
    var fragment :- ReadFragment(f, c);
    var digests :- ReadDigests(f, c);
    var posix :- ReadPosix(f, c);
    return Ok(Meta(core, algos, fragment, digests, posix));
  }

  method ReadLens(f: GlobalFlags, c: ParseCursor) returns (r: Result<Lens, SarError>)
    requires c.Valid()
    modifies c
    ensures c.Valid() && Agrees(r, c.Rest(), TakeLens(f, old(c.Rest())))
  {
    hide TakeInt, TakeOptInt, ParseCursor.Valid, ParseCursor.Rest;
    var name :- c.ReadInt(2);
    var path :- c.ReadOptInt(f.hasPath, 2);
    var sparse :- c.ReadOptInt(f.sparse, 4);
    var fec :- c.ReadOptInt(f.selectiveFec, 3);
    return Ok(Lens(name, path.GetOr(0), sparse.GetOr(0), fec.GetOr(0)));
  }

  /** The four variable-length fields, one read after another. */
  method ReadNames(l: Lens, c: ParseCursor) returns (n: Names)
    requires c.Valid() && |c.Rest()| == l.Total()
    modifies c
    ensures c.Valid() && c.Rest() == [] && n == Cut(l, old(c.Rest()))
  {
    hide Take, Cut, ParseCursor.Valid, ParseCursor.Rest;
    ghost var s := c.Rest();
    TakeExactly(l.name, s);
    var name := c.ReadBytes(l.name);
    TakeExactly(l.path, c.Rest());
    var path := c.ReadBytes(l.path);
    TakeExactly(l.sparse, c.Rest());
    var sparse := c.ReadBytes(l.sparse);
    TakeExactly(l.fec, c.Rest());
    var fec := c.ReadBytes(l.fec);
    n := Names(name.value, path.value, sparse.value, fec.value);
    assert c.Rest() == [] && n.fecValue + [] == n.fecValue;
    Assoc3(n.name, n.path, n.sparseMap, n.fecValue);
    CutJoined(n.name, n.path, n.sparseMap, n.fecValue);
  }

  lemma TakeExactly(n: nat, s: seq<byte>)
    requires n <= |s|
    ensures Take(n, s).Ok? && var (a, t) := Take(n, s).value; |a| == n && s == a + t
  {
  }

  /** `parse_lfh`. */
  method ParseLfh(f: GlobalFlags, input: seq<byte>, lim: Limits) returns (r: Result<(Header, nat), SarError>)
    ensures r == ParseHeader(f, input, lim)
  {
    hide TakeInt, ParseRest, ParseCursor.Valid, ParseCursor.Rest;
    Widths();
    var cursor := new ParseCursor(input);
    var size :- cursor.ReadInt(4);
    if size > lim.maxLfh { return Err(LimitExceeded); }
    if size > |input| { return Err(Truncated); }
    var c := new ParseCursor(input[..size]);
    var _ :- c.ReadInt(4);
    var h :- ReadRest(f, size, c, lim);
    if h.headerSize != size { return Err(InvalidLength); }
    return Ok((h, size));
  }

  method ReadRest(f: GlobalFlags, size: u32, c: ParseCursor, lim: Limits) returns (r: Result<Header, SarError>)
    requires c.Valid()
    modifies c
    ensures r == ParseRest(f, size, old(c.Rest()), lim)
  {
    hide TakeInt, TakeMeta, TakeLens, Cut, MetaWidth, ValidateMode, ParseCursor.Valid, ParseCursor.Rest;
    Widths();
    var mode :- c.ReadInt(2);
    var _ :- ValidateMode(f, mode);
    var meta :- ReadMeta(f, mode, c);
    var lens :- ReadLens(f, c);
    if lens.name + lens.path > lim.maxPath { return Err(LimitExceeded); }
    if lens.sparse > lim.maxSparseMap { return Err(LimitExceeded); }
    if lens.fec > lim.maxFecValue { return Err(LimitExceeded); }
    if |c.input| - c.pos != lens.Total() { return Err(InvalidLength); }
    var names := ReadNames(lens, c);
    var h := Header(size, meta, names);
    var computed := ComputeSize(f, h);
    if computed != size { return Err(InvalidLength); }
    return Ok(h);
  }
}
