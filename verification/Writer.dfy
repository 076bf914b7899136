/** The archive writer: an object whose calls are the steps of the writer's state machine. */
module Writer {
  import opened Bytes
  import opened Io
  import opened Flags
  import opened LfhFields
  import opened Lfh
  import opened GlobalHeader
  import opened DataArea
  import opened ArchiveImage
  import opened WriterPlan
  import opened WriterSteps
  import Bsdiff
  import Vcdiff
  import Entry
  import CD = CentralDictionary
  import Tlv

  class ArchiveWriter {
    const settings: Settings
    var flags: GlobalFlags
    var metadata: seq<Tlv.Tlv>
    var finished: bool
    var headerWritten: bool
    var flagsSection: seq<byte>
    var usedNonces: set<bytes24>
    /** The bytes collected for archive-level recovery. */
    var collected: seq<byte>
    var sink: seq<byte>
    var position: nat
    var offsets: seq<nat>

    constructor (settings: Settings, flags: GlobalFlags, metadata: seq<Tlv.Tlv>)
      ensures this.settings == settings && View() == State(flags, metadata, false, false, [], {}, [], [], 0, [])
    {
      this.settings, this.flags, this.metadata, finished, headerWritten := settings, flags, metadata, false, false;
      flagsSection, usedNonces, collected, sink, position, offsets := [], {}, [], [], 0, [];
    }

    ghost function View(): State
      reads this
    {
      State(flags, metadata, finished, headerWritten, flagsSection, usedNonces, collected, sink, position, offsets)
    }

    /** `track_archive_recovery_bytes`. */
    method Collect(bytes: seq<byte>) returns (r: Check)
      modifies this`collected
      ensures r == CheckTrack(settings, old(collected), bytes)
      ensures View() == if r.Ok? then Tracked(settings, old(View()), bytes) else old(View())
    {
      if settings.recovery.None? { return Ok(()); }
      var n := |collected| + |bytes|;
      if n > settings.lim.maxBuffer { return Err(LimitExceeded); }
      if n > settings.lim.maxRecoveryRange { return Err(LimitExceeded); }
      collected := collected + bytes;
      return Ok(());
    }

    method WriteAll(bytes: seq<byte>)
      modifies this`sink, this`position
      ensures View() == Append(old(View()), bytes)
    {
      sink := sink + bytes;
      position := position + |bytes|;
    }

    /** `emit_global_header_if_needed`. */
    method EmitHeader() returns (r: Check)
      modifies this`flagsSection, this`collected, this`sink, this`position, this`headerWritten
      ensures r == CheckEmit(settings, old(View()))
      ensures View() == if r.Ok? then Emitted(settings, old(View())) else Refused(settings, old(View()))
    {
      hide PrintGlobal, FlagsSection, Behind, HeaderOf, Head, CheckTrack;
      if headerWritten { return Ok(()); }
      var g := HeaderOf(flags, settings.kms);
      flagsSection := FlagsSection(g);
      var bytes :- WriteGlobalHeader(g);
      HeadSize(settings, flags);
      var _ :- Collect(Behind(bytes));
      WriteAll(bytes);
      headerWritten := true;
      return Ok(());
    }

    /** `write_entry`. */
    method WriteEntry(lfh: seq<byte>, payload: seq<byte>) returns (r: Result<Written, SarError>)
      modifies this`collected, this`sink, this`position, this`offsets
      ensures (r, View()) == Write(settings, old(View()), lfh, payload)
    {
      hide CheckTrack;
      var at := position;
      var _ :- Collect(lfh);
      var _ :- Collect(payload);
      WriteAll(lfh);
      WriteAll(payload);
      offsets := offsets + [at];
      return Ok(Written(at, |lfh| + |payload|));
    }

    /** The loop that looks for a nonce that was not used before. */
    method ChooseNonce(generated: seq<bytes24>) returns (r: Result<bytes24, SarError>)
      modifies this`usedNonces
      ensures match FirstUnused(old(usedNonces), generated)
        case Some(n) => r == Ok(n) && usedNonces == old(usedNonces) + {n}
        case None => r == Err(NonceReuse) && usedNonces == old(usedNonces)
    {
      assert generated[0..] == generated;
      for i := 0 to |generated|
        invariant usedNonces == old(usedNonces)
        invariant FirstUnused(usedNonces, generated) == FirstUnused(usedNonces, generated[i..])
      {
        assert generated[i..][0] == generated[i] && generated[i..][1..] == generated[i + 1..];
        if generated[i] !in usedNonces {
          usedNonces := usedNonces + {generated[i]};
          return Ok(generated[i]);
        }
      }
      return Err(NonceReuse);
    }

    /** `generate_entry_patch`. */
    method PatchPayload(e: Input) returns (r: Result<seq<byte>, SarError>)
      ensures r == WirePayload(settings, e)
    {
      hide Bsdiff.CanGenerate, Vcdiff.CanGenerate, Bsdiff.Generated, Vcdiff.Generated;
      if e.delta.None? || e.delta.value.algo == Entry.STORE_PATCH { return Ok(e.payload); }
      var delta := e.delta.value;
      if delta.algo == Entry.VCDIFF {
        r := Vcdiff.Generate(delta.base, e.payload, settings.vcdiff);
      } else if delta.algo == Entry.BSDIFF {
        r := Bsdiff.Generate(delta.base, e.payload, settings.bsdiff);
      } else {
        return Err(Unsupported);
      }
    }

    /** The header and payload of an encrypted entry. */
    method SealEntry(h: Header, nonce: bytes24, wire: seq<byte>, reserved: nat) returns (r: Result<Stored, SarError>)
      ensures r == MakeSealed(settings, flags, flagsSection, h, nonce, wire, reserved)
    {
      hide PrintHeader, Aad;
      var provisional :- WriteLfh(flags, WithFec(h, Zeros(reserved)));
      var aad :- BytesForAad(flags, provisional, h.meta.algos.fec.GetOr(0), reserved);
      var encoded :- Encode(settings, wire);
      var sealed :- settings.encrypt(nonce, flagsSection + aad, encoded);
      if settings.fec.None? { return Ok(Stored(h, sealed)); }
      if |sealed| < 16 { return Err(InvalidLength); }
      var v :- settings.fec.value.Value(sealed[..|sealed| - 16]);
      if |v| != reserved { return Err(InvalidLength); }
      return Ok(Stored(WithFec(h, v), sealed));
    }

    /** `add_entry` once the header is out. */
    method CompleteEntry(e: Input, d: Draft, generated: seq<bytes24>) returns (r: Result<Written, SarError>)
      requires |e.payload| <= U64_MAX && PayloadSize(flags, d.encoded) <= U64_MAX
      modifies this`usedNonces, this`collected, this`sink, this`position, this`offsets
      ensures (r, View()) == Complete(settings, old(View()), e, d, generated)
    {
      hide MakeClear, MakeSealed, EntryHeader, PrintHeader, Write, FirstUnused;
      var reserved :- Reserve(settings, flags, d.encoded);
      var nonce: Option<bytes24> := None;
      if flags.encrypted {
        var n :- ChooseNonce(generated);
        nonce := Some(n);
      }
      var h := EntryHeader(settings, flags, e, PayloadSize(flags, d.encoded), nonce);
      var made: Stored;
      if flags.encrypted {
        made :- SealEntry(h, nonce.value, d.wire, reserved);
      } else {
        made :- MakeClear(settings, flags, h, d.encoded);
      }
      var lfh :- WriteLfh(flags, made.lfh);
      r := WriteEntry(lfh, made.payload);
    }

    /** `apply_size_policy`. */
    method ApplySizePolicy(uncompressed: nat, payload: nat) returns (r: Check)
      modifies this`flags
      ensures match PolicyFlags(settings.policy, old(flags), headerWritten, uncompressed, payload)
        case Ok(f) => r == Ok(()) && flags == f
        case Err(x) => r == Err(x) && flags == old(flags)
    {
      var exceeds := uncompressed > U32_MAX || payload > U32_MAX;
      match settings.policy {
        case Force64 => flags := flags.(size64 := true);
        case Force32 =>
          if exceeds { return Err(Overflow); }
          flags := flags.(size64 := false);
        case Auto =>
          SetSize(flags, flags.size64);
          if exceeds {
            if headerWritten && !flags.size64 { return Err(Overflow); }
            flags := flags.(size64 := true);
          } else if !headerWritten {
            flags := flags.(size64 := false);
          }
      }
      return Ok(());
    }

    /** `add_entry`. */
    method AddEntry(e: Input, generated: seq<bytes24>) returns (r: Result<Written, SarError>)
      modifies this
      ensures (r, View()) == Add(settings, old(View()), e, generated)
    {
      hide CheckInput, WirePayload, PolicyFlags, CheckEmit, Refused, Emitted, Complete;
      if finished { return Err(Malformed); }
      var _ :- CheckInput(settings, flags, e);
      var wire :- PatchPayload(e);
      var encoded :- Encode(settings, wire);
      if |e.payload| > U64_MAX || PayloadSize(flags, encoded) > U64_MAX { return Err(Overflow); }
      ghost var f := flags;
      var _ :- ApplySizePolicy(|e.payload|, PayloadSize(flags, encoded));
      SameEncryption(settings.policy, f, headerWritten, |e.payload|, PayloadSize(f, encoded));
      var _ :- EmitHeader();
      r := CompleteEntry(e, Draft(wire, encoded), generated);
    }

    /** `finalize_archive_recovery_metadata`. */
    method SealRecovery() returns (r: Check)
      modifies this`metadata
      ensures (r, View()) == Seal(settings, old(View()))
    {
      if settings.recovery.None? { return Ok(()); }
      if position < 8 { return Err(Overflow); }
      if |collected| != position - 8 { return Err(Internal); }
      var v :- settings.recovery.value.value(collected);
      metadata := metadata + [Tlv.Tlv(settings.recovery.value.algo, v)];
      return Ok(());
    }

    /** The index, its padding and the footer. */
    method WriteIndex() returns (r: Check)
      modifies this`sink, this`position
      ensures (r, View()) == Close(old(View()))
    {
      hide CD.Print, Pad, CD.PrintFooter;
      var cdOffset := position;
      var cd := CD.Cd(1, |offsets|, None, None, metadata, offsets);
      var bytes :- CD.WriteCentralDictionary(flags, cd);
      if cdOffset > U64_MAX { return Err(Overflow); }
      WriteAll(bytes);
      WriteAll(Zeros(Pad(position)));
      WriteAll(CD.PrintFooter(cdOffset));
      return Ok(());
    }

    /** `finish`. */
    method FinishArchive() returns (r: Result<Summary, SarError>)
      modifies this
      ensures (r, View()) == Finish(settings, old(View()))
    {
      hide CheckEmit, Refused, Emitted, Seal, Close;
      if finished { return Err(Malformed); }
      var _ :- EmitHeader();
      if !flags.noIndex {
        var _ :- SealRecovery();
        var _ :- WriteIndex();
      }
      finished := true;
      return Ok(Summary(|offsets|, position, !flags.noIndex));
    }
  }
}
