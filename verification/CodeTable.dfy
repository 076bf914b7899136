/** The 256-entry instruction code table that the decoder builds. */
module CodeTable {
  import opened Bytes

  const S_NEAR := 4
  const S_SAME := 3
  const N_MODES := 9

  datatype InstType = Noop | Add | Run | Copy

  /** A size of zero means that the size follows as a varint. */
  datatype InstDef = InstDef(ty: InstType, size: byte, mode: byte)

  datatype Entry = Entry(first: InstDef, second: InstDef)

  const NOOP := InstDef(Noop, 0, 0)

  function Single(d: InstDef): Entry {
    Entry(d, NOOP)
  }

  /** The entry of each code, in closed form. */
  function EntryOf(code: byte): Entry {
    if code == 0 then Single(NOOP)
    else if code == 1 then Single(InstDef(Add, 0, 0))
    else if code == 2 then Single(InstDef(Run, 0, 0))
    else if code < 19 then Single(InstDef(Add, code - 2, 0))
    else if code < 163 then
      var k := code - 19;
      Single(InstDef(Copy, if k % 16 == 0 then 0 else k % 16 + 3, k / 16))
    else
      var k := code - 163;
      Entry(InstDef(Add, 1 + k / 27, 0), InstDef(Copy, 4 + k % 3, k / 3 % 9))
  }

  /**
   No two codes mean the same, and every COPY uses one of the nine addressing modes, so that the
   decoder's refusal of other modes is never reached.
   */
  lemma CodesDistinct(a: byte, b: byte)
    ensures EntryOf(a) == EntryOf(b) ==> a == b
    ensures EntryOf(a).first.mode < N_MODES && EntryOf(a).second.mode < N_MODES
  {
    if 163 <= a && 163 <= b && EntryOf(a) == EntryOf(b) {
      PairIndex(a - 163);
      PairIndex(b - 163);
    }
  }

  /** The three digits of a pair's position. */
  lemma PairIndex(k: nat)
    ensures k == 27 * (k / 27) + 3 * (k / 3 % 9) + k % 3
  {
    assert k / 27 == k / 3 / 9;
  }

  /** Which code stands for which instructions: the table written out, row by row. */
  lemma CodesAre(size: byte, mode: byte, add: byte, copy: byte)
    requires 1 <= size <= 16 && mode < 9 && 1 <= add <= 4 && 4 <= copy <= 6
    ensures EntryOf(0) == Entry(InstDef(Noop, 0, 0), InstDef(Noop, 0, 0))
    ensures EntryOf(1) == Entry(InstDef(Add, 0, 0), InstDef(Noop, 0, 0))
    ensures EntryOf(2) == Entry(InstDef(Run, 0, 0), InstDef(Noop, 0, 0))
    ensures EntryOf(2 + size) == Entry(InstDef(Add, size, 0), InstDef(Noop, 0, 0))
    ensures EntryOf(19 + 16 * mode) == Entry(InstDef(Copy, 0, mode), InstDef(Noop, 0, 0))
    ensures size <= 15 ==> EntryOf(19 + 16 * mode + size) == Entry(InstDef(Copy, size + 3, mode), InstDef(Noop, 0, 0))
    ensures var code := 163 + 27 * (add - 1) + 3 * mode + (copy - 4);
      code <= 255 ==> EntryOf(code) == Entry(InstDef(Add, add, 0), InstDef(Copy, copy, mode))
  {
    var k := 27 * (add - 1) + 3 * mode + (copy - 4);
    assert k / 27 == add - 1 && k % 3 == copy - 4 && k / 3 == 9 * (add - 1) + mode;
    assert (16 * mode + size) / 16 == mode || size == 16;
  }

  predicate IsTable(table: seq<Entry>) {
    |table| == 256 && forall c: byte :: table[c] == EntryOf(c)
  }

  /** `build_default_code_table`: the table-filling loops produce exactly the closed form. */
  method Build() returns (table: array<Entry>)
    ensures fresh(table) && IsTable(table[..])
  {
    table := new Entry[256](_ => Single(NOOP));
    table[1] := Single(InstDef(Add, 0, 0));
    table[2] := Single(InstDef(Run, 0, 0));
    FillAdds(table);
    FillCopies(table);
    FillPairs(table);
  }

  ghost predicate Filled(table: array<Entry>, n: nat)
    reads table
  {
    table.Length == 256 && n <= 256 && forall c :: 0 <= c < n ==> table[c] == EntryOf(c)
  }

  /** ADD with the sizes 1 to 16. */
  method FillAdds(table: array<Entry>)
    requires Filled(table, 3)
    modifies table
    ensures Filled(table, 19)
  {
    var idx := 3;
    for s := 1 to 17
      invariant idx == 2 + s && Filled(table, idx)
    {
      table[idx] := Single(InstDef(Add, s, 0));
      idx := idx + 1;
    }
  }

  /** COPY with every mode, the explicit size first and then the sizes 4 to 18. */
  method FillCopies(table: array<Entry>)
    requires Filled(table, 19)
    modifies table
    ensures Filled(table, 163)
  {
    hide EntryOf;
    var idx := 19;
    for mode := 0 to N_MODES
      invariant idx == 19 + 16 * mode && Filled(table, idx)
    {
      CopyCode(mode, 3);
      table[idx] := Single(InstDef(Copy, 0, mode));
      idx := idx + 1;
      for s := 4 to 19
        invariant idx == 19 + 16 * mode + (s - 3) && Filled(table, idx)
      {
        CopyCode(mode, s);
        table[idx] := Single(InstDef(Copy, s, mode));
        idx := idx + 1;
      }
    }
  }

  lemma CopyCode(mode: nat, s: nat)
    requires mode < 9 && 3 <= s <= 18
    ensures EntryOf(19 + 16 * mode + (s - 3)) == Single(InstDef(Copy, if s == 3 then 0 else s, mode))
  {
  }

  /** The ADD+COPY pairs, until the table is full. */
  method FillPairs(table: array<Entry>)
    requires Filled(table, 163)
    modifies table
    ensures Filled(table, 256)
  {
    var idx := 163;
    var addSize := 1;
    hide EntryOf;
    while addSize <= 4
      invariant 1 <= addSize <= 4 && idx == 163 + 27 * (addSize - 1) && Filled(table, idx)
      decreases 4 - addSize
    {
      for mode := 0 to N_MODES
        invariant idx == 163 + 27 * (addSize - 1) + 3 * mode && Filled(table, idx)
      {
        for copySize := 4 to 7
          invariant idx == 163 + 27 * (addSize - 1) + 3 * mode + (copySize - 4) && Filled(table, idx)
        {
          if idx >= 256 { return; }
          PairCode(addSize, mode, copySize);
          table[idx] := Entry(InstDef(Add, addSize, 0), InstDef(Copy, copySize, mode));
          idx := idx + 1;
        }
      }
      addSize := addSize + 1;
    }
  }

  lemma PairCode(addSize: nat, mode: nat, copySize: nat)
    requires 1 <= addSize <= 4 && mode < 9 && 4 <= copySize <= 6
    requires 27 * (addSize - 1) + 3 * mode + (copySize - 4) < 93
    ensures EntryOf(163 + 27 * (addSize - 1) + 3 * mode + (copySize - 4))
            == Entry(InstDef(Add, addSize, 0), InstDef(Copy, copySize, mode))
  {
  }
}
