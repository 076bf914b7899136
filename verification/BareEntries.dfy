/** Entries with the smallest headers, on which the push parser and the reader part ways. */
module BareEntries {
  import opened Bytes
  import opened Flags
  import opened LfhFields
  import opened Lfh
  import opened GlobalHeader
  import opened Entry
  import opened Archive
  import opened DataArea
  import opened Agreement
  import opened Stream
  import opened StreamErrors

  const PLAIN_FLAGS := NO_FLAGS.(noIndex := true)

  /** A header of 20 bytes without a name. */
  function Bare(mode: u16, n: u32): Header {
    Header(20,
           Meta(Core(mode, 0, 0, n, n), Algos(None, None, None, None, None), Fragment(None, None, None),
                Digests(None, None, None, None), Posix(None, None, None)),
           Names([], [], [], []))
  }

  /** A reader with room for such headers. */
  ghost predicate Roomy(o: Options) {
    20 <= o.lim.maxLfh < MAGIC_SIZE && o.isText([]) && ExtrasAbsent(o)
  }

  lemma BarePrints(o: Options, mode: u16, n: u32)
    requires ValidateMode(PLAIN_FLAGS, mode).Ok? && o.lim.maxLfh >= 20
    ensures HeaderFits(o, PLAIN_FLAGS, Bare(mode, n)) && |PrintHeader(PLAIN_FLAGS, Bare(mode, n)).value| == 20
  {
    hide ValidateMode, Wire;
    PrintedSize(PLAIN_FLAGS, Bare(mode, n));
  }

  lemma BareDecodes(o: Options, g: Global, mode: u16, lfh: seq<byte>, payload: seq<byte>)
    requires Roomy(o) && g.flags == PLAIN_FLAGS && |payload| <= U32_MAX && |payload| <= o.lim.maxDecoded
    requires !HasBit(mode, IS_DIRECTORY) && !HasBit(mode, IS_SYMLINK)
    ensures Decode(o, g, Bare(mode, |payload|), lfh, payload) == Ok(payload)
  {
    hide HasBit, Decode;
    PlainDecodes(o, g, Bare(mode, |payload|), lfh, payload);
  }

  lemma ModesAreValid()
    ensures ValidateMode(PLAIN_FLAGS, 0).Ok? && ValidateMode(PLAIN_FLAGS, SESSION_CONTROL).Ok?
    ensures !HasBit(SESSION_CONTROL, IS_DIRECTORY) && !HasBit(SESSION_CONTROL, IS_SYMLINK)
    ensures !HasBit(0, IS_DIRECTORY) && !HasBit(0, IS_SYMLINK)
    ensures !IsControl(Bare(0, 0)) && IsControl(Bare(SESSION_CONTROL, 0))
  {
  }

  // ---------------------------------------------------------------------
  // A control entry
  // ---------------------------------------------------------------------

  /** A control entry is an event of the parser, and the reader refuses it. */
  lemma ControlRefused(o: Options, g: Global, c: nat, file: seq<byte>, at: nat, h: Header, d: seq<byte>)
    requires EntryAt(o, g, file, at, h, d) && IsControl(h) && |file| <= U64_MAX && o.lim.maxLfh < MAGIC_SIZE
    ensures Next(o, g, file, at, |file|).Err?
    ensures var t := Drain(o, NeedLfh(Active(g, c)), at, file[at..]); t.events != [] && t.events[0] == EntryRead(at, h, d)
  {
    hide Next, IsControl, Drain, Decode, HeaderAt;
    EntryEvent(o, g, c, file, at, h, d);
    if Next(o, g, file, at, |file|).Ok? { NextParts(o, g, file, at, |file|); }
  }

  lemma ControlLies(o: Options, g: Global)
    requires Roomy(o) && g.flags == PLAIN_FLAGS
    ensures PrintHeader(PLAIN_FLAGS, Bare(SESSION_CONTROL, 0)).Ok?
    ensures var file := PrintHeader(PLAIN_FLAGS, Bare(SESSION_CONTROL, 0)).value;
      |file| == 20 && EntryAt(o, g, file, 0, Bare(SESSION_CONTROL, 0), [])
  {
    hide HeaderAt, PrintHeader, ValidateMode, HasBit, Decode;
    ModesAreValid();
    BarePrints(o, SESSION_CONTROL, 0);
    var h := Bare(SESSION_CONTROL, 0);
    var file := PrintHeader(PLAIN_FLAGS, h).value;
    assert file[0..0 + |file|] == file && file[20..20] == [];
    PrintedHeaderAt(o, g, h, file, 0);
    BareDecodes(o, g, SESSION_CONTROL, file, []);
  }

  /** Twenty bytes that the parser takes for an entry and the reader refuses. */
  lemma ControlEntry(o: Options, g: Global, c: nat)
    requires Roomy(o) && g.flags == PLAIN_FLAGS
    ensures PrintHeader(PLAIN_FLAGS, Bare(SESSION_CONTROL, 0)).Ok?
    ensures var file := PrintHeader(PLAIN_FLAGS, Bare(SESSION_CONTROL, 0)).value;
      && Entries(o, g, file, 0, |file|).Err?
      && Drain(o, NeedLfh(Active(g, c)), 0, file) ==
           Trace([EntryRead(0, Bare(SESSION_CONTROL, 0), []), ArchiveRead(c + 1, PLAIN_FLAGS, false)], Ok(()))
  {
    hide Next, Drain, EntryAt, IsControl, PrintHeader, ValidateMode, HasBit;
    ModesAreValid();
    ControlLies(o, g);
    var h := Bare(SESSION_CONTROL, 0);
    var file := PrintHeader(PLAIN_FLAGS, h).value;
    ControlRefused(o, g, c, file, 0, h, []);
    EntryEvent(o, g, c, file, 0, h, []);
    DrainEnd(o, Active(g, c + 1), 20);
    assert file[0..] == file && file[20..] == [];
  }

  // ---------------------------------------------------------------------
  // An entry within a refused payload
  // ---------------------------------------------------------------------

  /** The image of an entry that holds a payload. */
  function Wrapping(payload: seq<byte>): Stored
    requires |payload| <= U32_MAX
  {
    Stored(Bare(0, |payload|), payload)
  }

  lemma WrappingAdmissible(o: Options, g: Global, payload: seq<byte>)
    requires Roomy(o) && g.flags == PLAIN_FLAGS && |payload| <= U32_MAX && |payload| <= o.lim.maxDecoded
    requires o.lim.AllocationLen(|payload|).Ok?
    ensures Admissible(o, g, Wrapping(payload)) && ItemOf(o, g, Wrapping(payload), 20).payload == payload
  {
    hide HeaderFits, PrintHeader, ValidateMode, HasBit, Decode;
    ModesAreValid();
    BarePrints(o, 0, |payload|);
    FitsPrints(o, Bare(0, |payload|));
    BareDecodes(o, g, 0, PrintHeader(PLAIN_FLAGS, Bare(0, |payload|)).value, payload);
  }

  /**
   A file stored in an archive is itself the image of an entry, followed by any `tail` that makes it
   too long for the limits. The parser refuses the outer entry; the next step, with nothing pushed,
   hands out the inner one.
   */
  lemma NestedFile(o: Options, g: Global, c: nat, payload: seq<byte>, tail: seq<byte>)
    requires Roomy(o) && g.flags == PLAIN_FLAGS && |payload| <= o.lim.maxDecoded && o.lim.AllocationLen(|payload|).Ok?
    requires 20 + |payload| + |tail| <= U32_MAX && o.lim.AllocationLen(20 + |payload| + |tail|) == Err(LimitExceeded)
    ensures var outer := Image(PLAIN_FLAGS, Wrapping(payload)) + tail;
      && |outer| == 20 + |payload| + |tail|
      && var file := Image(PLAIN_FLAGS, Wrapping(outer));
         var r := StepFrom(o, NeedLfh(Active(g, c)), 0, file, true);
         && r == Stepped(Err(LimitExceeded), NeedLfh(Active(g, c)), 20)
         && Again(o, r, 0, file, true).result == Ok(Ready(EntryRead(20, Bare(0, |payload|), payload)))
  {
    hide HeaderFits, PrintHeader, ValidateMode, Decode, StepFrom, Admissible, ItemOf, Again;
    ModesAreValid();
    var n: u32 := 20 + |payload| + |tail|;
    BarePrints(o, 0, |payload|);
    BarePrints(o, 0, n);
    FitsPrints(o, Bare(0, |payload|));
    FitsPrints(o, Bare(0, n));
    WrappingAdmissible(o, g, payload);
    NestedEntry(o, Active(g, c), Bare(0, n), Wrapping(payload), tail);
  }

  lemma FitsPrints(o: Options, h: Header)
    requires HeaderFits(o, PLAIN_FLAGS, h)
    ensures PrintHeader(PLAIN_FLAGS, h).Ok?
  {
    hide PrintHeader;
  }
}
