/** The COPY address cache (section 5.1 of RFC 3284) as a function of the addresses seen. */
module AddrCache {
  import opened Bytes
  import opened Varint
  import opened CodeTable

  const SAME_SLOTS := 768

  /** A near slot after a history of addresses: the ring is filled one slot per COPY. */
  function NearSlot(h: seq<nat>, i: nat): nat
    requires i < S_NEAR
  {
    if h == [] then 0
    else if (|h| - 1) % S_NEAR == i then h[|h| - 1]
    else NearSlot(h[..|h| - 1], i)
  }

  /** A same slot after a history of addresses. */
  function SameSlot(h: seq<nat>, r: nat): nat
    requires r < SAME_SLOTS
  {
    if h == [] then 0
    else if h[|h| - 1] % SAME_SLOTS == r then h[|h| - 1]
    else SameSlot(h[..|h| - 1], r)
  }

  /** Near slots hold the last four addresses in ring order, and zero before that. */
  lemma {:induction false} NearIsLastFour(h: seq<nat>, j: nat)
    requires |h| - S_NEAR <= j < |h|
    ensures NearSlot(h, j % S_NEAR) == h[j]
    ensures forall i :: |h| <= i < S_NEAR ==> NearSlot(h, i) == 0
    decreases |h|
  {
    NearStartsZero(h);
    if j < |h| - 1 { NearIsLastFour(h[..|h| - 1], j); }
  }

  lemma {:induction false} NearStartsZero(h: seq<nat>)
    ensures forall i :: |h| <= i < S_NEAR ==> NearSlot(h, i) == 0
  {
    if h != [] { NearStartsZero(h[..|h| - 1]); }
  }

  /** A same slot holds the latest address congruent to it. */
  lemma {:induction false} SameIsLatest(h: seq<nat>, r: nat, j: nat)
    requires r < SAME_SLOTS && j < |h| && h[j] % SAME_SLOTS == r
    requires forall k :: j < k < |h| ==> h[k] % SAME_SLOTS != r
    ensures SameSlot(h, r) == h[j]
    decreases |h|
  {
    if j < |h| - 1 { SameIsLatest(h[..|h| - 1], r, j); }
  }

  /** A same slot that no address was congruent to is zero. */
  lemma {:induction false} SameStartsZero(h: seq<nat>, r: nat)
    requires r < SAME_SLOTS && forall k :: 0 <= k < |h| ==> h[k] % SAME_SLOTS != r
    ensures SameSlot(h, r) == 0
  {
    if h != [] { SameStartsZero(h[..|h| - 1], r); }
  }

  /** Where a COPY starts, given the history, the current position and the address bytes left. */
  function TakeAddress(h: seq<nat>, mode: byte, here: nat, s: seq<byte>): Parse<nat> {
    if mode == 0 then TakeVarint(s)
    else if mode == 1 then
      var (v, t) :- TakeVarint(s);
      if v <= here then Ok((here - v, t)) else Err(PatchFailed)
    else if mode < 2 + S_NEAR then
      var (v, t) :- TakeVarint(s);
      var a := NearSlot(h, mode - 2) + v;
      if a <= U64_MAX then Ok((a, t)) else Err(PatchFailed)
    else if mode < N_MODES then
      var (b, t) :- TakeByte(s);
      Ok((SameSlot(h, (mode - 6) * 256 + b), t))
    else Err(PatchFailed)
  }

  /** Self mode writes an address as itself, here mode as its distance back from the current position. */
  lemma SelfAndHereBack(h: seq<nat>, here: nat, a: u64, t: seq<byte>)
    ensures TakeAddress(h, 0, here, Encode(a) + t) == Ok((a, t))
    ensures a <= here <= U64_MAX ==> TakeAddress(h, 1, here, Encode(here - a) + t) == Ok((a, t))
  {
    hide Encode, TakeVarint;
    VarintRoundTrip(a, t);
    if a <= here <= U64_MAX { VarintRoundTrip(here - a, t); }
  }

  /** The near modes write it as its distance from one of the last four addresses, or from zero while there are fewer. */
  lemma NearBack(h: seq<nat>, here: nat, j: nat, a: u64, t: seq<byte>)
    requires |h| - 4 <= j < 4 + |h|
    ensures j < |h| && h[j] <= a ==> TakeAddress(h, 2 + j % 4, here, Encode(a - h[j]) + t) == Ok((a, t))
    ensures |h| <= j < 4 ==> TakeAddress(h, 2 + j, here, Encode(a) + t) == Ok((a, t))
  {
    hide Encode, TakeVarint;
    NearStartsZero(h);
    VarintRoundTrip(a, t);
    if j < |h| && h[j] <= a {
      NearIsLastFour(h, j);
      VarintRoundTrip(a - h[j], t);
    }
  }

  /** The same modes write it as the place, in two parts, of the latest address with the same remainder by 768. */
  lemma SameBack(h: seq<nat>, here: nat, j: nat, t: seq<byte>)
    requires j < |h| && forall k :: j < k < |h| ==> h[k] % 768 != h[j] % 768
    ensures var r := h[j] % 768; TakeAddress(h, 6 + r / 256, here, [r % 256] + t) == Ok((h[j], t))
  {
    var r := h[j] % 768;
    SameIsLatest(h, r, j);
    var s: seq<byte> := [r % 256] + t;
    assert s[1..] == t;
  }

  class Cache {
    const near: array<nat>
    const same: array<nat>
    var nearNext: nat
    ghost var history: seq<nat>

    constructor ()
      ensures Valid() && history == [] && fresh(near) && fresh(same)
    {
      near := new nat[S_NEAR](_ => 0);
      same := new nat[SAME_SLOTS](_ => 0);
      nearNext := 0;
      history := [];
    }

    /** The cache is exactly what its history says. */
    ghost predicate Valid()
      reads this, near, same
    {
      && near != same && near.Length == S_NEAR && same.Length == SAME_SLOTS
      && nearNext == |history|
      && (forall i :: 0 <= i < S_NEAR ==> near[i] == NearSlot(history, i))
      && (forall r :: 0 <= r < SAME_SLOTS ==> same[r] == SameSlot(history, r))
    }

    method DecodeAddress(mode: byte, here: nat, reader: ByteReader) returns (r: Result<nat, SarError>)
      requires Valid() && reader.Valid()
      modifies reader
      ensures reader.Valid()
      ensures Agrees(r, reader.Rest(), TakeAddress(history, mode, here, old(reader.Rest())))
    {
      hide TakeVarint, NearSlot, SameSlot;
      if mode == 0 {
        r := reader.ReadVarint();
      } else if mode == 1 {
        var delta :- reader.ReadVarint();
        if here < delta { return Err(PatchFailed); }
        r := Ok(here - delta);
      } else if 2 <= mode <= 1 + S_NEAR {
        var offset :- reader.ReadVarint();
        if near[mode - 2] + offset > U64_MAX { return Err(PatchFailed); }
        r := Ok(near[mode - 2] + offset);
      } else if 2 + S_NEAR <= mode <= 1 + S_NEAR + S_SAME {
        var b :- reader.ReadU8();
        r := Ok(same[(mode - 6) * 256 + b]);
      } else {
        r := Err(PatchFailed);
      }
    }

    method Update(addr: nat)
      requires Valid()
      modifies this, near, same
      ensures Valid() && history == old(history) + [addr]
    {
      near[nearNext % S_NEAR] := addr;
      nearNext := nearNext + 1;
      same[addr % SAME_SLOTS] := addr;
      history := history + [addr];
      assert history[..|history| - 1] == old(history);
    }
  }
}
