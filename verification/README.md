# SAR archives in Dafny

A model of the SAR archive container and proofs about it: the wire format, the forward-only push
parser, the seeking reader, the writer, the delta codecs and the content-defined chunker. Nothing
here runs the original program.

The main results:

- The push parser yields the same events however its input is cut into pushes and however steps are
  interleaved. This holds exactly when no step falls into the first five bytes of a KMS extension
  (`Stream.ChunkingIndependence`).
- What every failing step of the push parser leaves behind, and what the next step makes of it
  (`StreamErrors.EntersError`, `StreamErrors.SecondStep`).
- The push parser and the seeking reader see the same archive (`Agreement.ReadersAgree`).
- A file verifies exactly when it is a concatenation of admissible entries that its index lists
  (`Verification.VerifiesExactly`, `DataArea.EntriesAreLaidOut`). Which files open and which entries
  decode, and to what, is an if-and-only-if on their bytes (`ReaderAcceptance.OpensExactly`,
  `ReaderAcceptance.DecodesExactly`).
- Every run of a writer keeps its invariant, and every finished run is the image of the accepted
  inputs (`WriterSteps.AddKeeps`, `WriterSteps.ArchiveOfRun`).
- `add_entry` and `finish` succeed exactly under conditions on the call, and then append exactly the
  bytes that the input determines, field by field (`WriterAcceptance.AddsExactly`,
  `WriterAcceptance.AddsIsAccepted`, `WriterAcceptance.FinishesExactly`).
- What was written under any settings is read back and streamed back (`RoundTrip.WrittenIsRead`,
  `RoundTrip.WrittenIsParsed`, `RoundTrip.WrittenIsStreamed`).
- Parsers and printers of all structures are inverse in both directions, and what they write and
  accept is a list of fields at stated positions (`WireLayout.AcceptedExactly`,
  `ContainerLayout.GlobalAccepted`, `ContainerLayout.DictionaryAccepted`).
- VCDIFF windows mean what their instructions say, exactly while no COPY index wraps around
  (`VcdiffWindow.WindowSemantics`), and every stream written out from such instructions decodes to
  what they say (`VcdiffWriting.WrittenApplies`).
- A BSDIFF patch is accepted exactly when its triples add up to the target, byte by byte
  (`BsdiffMeaning.AppliesExactly`); patches conserve bytes; both codecs round trip.
- FastCDC partitions, restarts and cuts locally, exactly where a closed form of its hash says
  (`CutPoints.ChunksExactly`).

## How it is built

Each structure has a specification as functions on byte sequences, and the imperative form of the
source (cursors, loops, in-place buffers, objects) as methods and classes that are proved equal to
it. The results are lemmas about the specification. Modules named after a meaning, a layout or an
acceptance state the same behaviour once more in terms that the specification does not use: literal
bytes, positions, closed forms and if-and-only-if conditions.

| files | part |
|---|---|
| `Bytes`, `Arith`, `Octets`, `Io`, `Flags` | words, little-endian integers, cursors, flags, limits |
| `LfhFields`, `LfhIo`, `Lfh`, `GlobalHeader`, `HeaderPeek`, `Tlv`, `CentralDictionary`, `WireLayout`, `ContainerLayout` | wire format |
| `Varint`, `CodeTable`, `AddrCache`, `VcdiffWindow`, `Vcdiff`, `VcdiffWriting`, `Bsdiff`, `BsdiffMeaning` | delta codecs |
| `FastCdc`, `CutPoints` | chunking |
| `Entry`, `Archive`, `DataArea`, `Verification`, `ReaderAcceptance`, `ArchiveReader` | seeking reader |
| `Stream`, `StreamRuns`, `StreamParser`, `StreamErrors`, `Agreement`, `BareEntries` | push parser |
| `ArchiveImage`, `WriterPlan`, `WriterSteps`, `WriterAcceptance`, `Writer`, `RoundTrip`, `RefusedArchives`, `PlainArchive`, `SealedArchive` | writer and round trips |

## Modelling decisions

- Errors are their kinds; messages are dropped. The patch errors map one to one to archive errors.
- `usize` has 64 bits. Sums of lengths of byte strings in memory are mathematical; the writer's
  position is one of them, and a body beyond 64 bits is refused when the index is written.
- The addition in front of the bounds check of a VCDIFF COPY (crates/sar-delta/src/vcdiff.rs:912) is
  unchecked in the source and wraps modulo 2^64 here, as in a release build; a build with overflow
  checks stops instead. The code table is the one that the source builds, not the one in section 5.6
  of RFC 3284, and a COPY that overlaps the bytes it produces is refused, although section 3 of
  RFC 3284 allows it.
- The two decoding pipelines (crates/sar-archive/src/archive.rs:1400-1639 and
  crates/sar-archive/src/stream.rs:384-640) take the same steps and are one function, `Entry.Decode`.
- Parameters stand for code that is not modelled: compressors, ciphers, key resolution, KMS payload
  checks, text encoding, FEC and recovery codecs, validators of FEC values, sparse maps, recovery
  and chunk-map metadata, the gear table, SHA-256 and generated nonces. There are two KMS payload
  parsers, the one for the TLS exporter mode and the one for all others; which of them the parser
  and the reader run is modelled.
- The stages around the codecs are modelled: which bytes are decrypted with which nonce, algorithm
  and associated data, when decompression runs, and the bounds on its output. Round trips through
  them are stated for readers that have the key of the archive (`key`), whose `decrypt` inverts
  `encrypt` on equal nonce and associated data, and whose `expand` inverts `compress` for bounds
  within their limit; encryption adds 16 bytes.
- Results that need room state the reader's limits as conditions; limits are arbitrary numbers.
- The source and the sink never fail; a short read of the seeking reader is an I/O error.

## Findings

- A step while the KMS prefix of an encrypted header is incomplete fails (`StreamRuns.SplitHeader`);
  `Stream.ChunkingIndependence` says exactly when that changes the result.
- A VCDIFF COPY can read bytes of an earlier window that lie outside its superstring, because the
  index is a sum that wraps (`Vcdiff.LateCopy`). It is accepted exactly when it stays inside the
  superstring or starts behind the wrap (`VcdiffWindow.CopyAccepts`), and a window means what its
  instructions say exactly when no COPY starts there, in particular while the earlier output is no
  longer than the source segment (`VcdiffWindow.WindowSemantics`).
- Errors of the push parser are not all terminal, so results about runs stop at the first error.
  When a payload may not be allocated, its header is already consumed and the next step takes the
  payload for a header (`BareEntries.NestedFile`). `StreamErrors.EntersError` says when an error is
  terminal, `StreamErrors.SecondStep` and `StreamErrors.Repeats` what a second step does.
- A directory that the writer accepts is read back exactly when nothing is stored for it: not in an
  encrypted archive, not with a generated patch that is stored as it is, and in a compressed one
  only if the compressor makes nothing of nothing (`RoundTrip.DirectoryReadable`,
  `RoundTrip.NothingStored`). One directory that is not read back makes the whole archive fail for
  every reader (`RefusedArchives.DirectoryIsFatal`, `SealedArchive.SealedDirectoryIsFatal`).
- The push parser accepts control entries that the seeking reader refuses (`BareEntries.ControlEntry`,
  `Agreement.ReadersAgree`).
- With the TLS exporter mode the reader opens an archive whatever the KMS payload holds; the push
  parser accepts the header exactly when that payload parses (`Agreement.ExporterHeader`).
- When the recovery limits admit the header of an entry and refuse its payload on top, and only then,
  the archive can no longer be finished (`WriterSteps.StumblingIsFatal`,
  `PlainArchive.RefusedFileIsFatal`).
- With FEC fields present but FEC switched off by algorithm 0, associated data of writer and reader
  differ unless the FEC value is zero (`Lfh.AadAgreement`). This concerns foreign archives only: the
  writer computes FEC values with XOR and Reed-Solomon alone, so the two always agree for what it
  seals (`RoundTrip.SealedData`).
- The integer encoding of BSDIFF loses `i64::MIN` (`Bsdiff.IntRoundTrip`), and a Global Header with
  unassigned flag bits is not written back as it was (`GlobalHeader.PrintTaken`).

## Model

| member | source | states |
|---|---|---|
| `Stream.ChunkingIndependence` | crates/sar-archive/src/stream.rs:149-382 | for every byte string within the size limit, every split into pushes and every interleaving of `step` calls, the events and the end of the run are those of the same bytes parsed in one piece, if and only if the schedule is harmless: no step is taken while fewer than five bytes of a KMS extension have arrived, except where the stream ends in that extension anyway (or the header is wrong before it and complete) |
| `Stream.TurnStable` | crates/sar-archive/src/stream.rs:169-382 | a turn of the loop that settles on the bytes so far settles in the same way with more bytes, finalized or not |
| `Stream.StepIsPrefix` | crates/sar-archive/src/stream.rs:169-382 | a step outside the KMS gap is the first step of the whole stream: same error, same event, or the same remaining trace |
| `Stream.GapStep` | crates/sar-archive/src/stream.rs:852-909 | a step inside the KMS gap fails, and the whole stream fails in the same way exactly under the stated condition on its length |
| `Stream.Turn` | crates/sar-archive/src/stream.rs:169-382 | every turn consumes only unread bytes and makes progress; `NeedMore` comes only before finalization and asks for more than is available; `Complete` only at the end of finalized input |
| `Stream.StepFrom` | crates/sar-archive/src/stream.rs:169-382 | a whole `step`: an event is progress, `NeedMore` asks for more than is left, `Complete` needs finalized input |
| `Stream.HintIsExact` | crates/sar-archive/src/stream.rs:169-382 | with any number of bytes below the hint of `NeedMore` the next step consumes nothing and asks for the same number again |
| `StreamRuns.UnencryptedChunking` | crates/sar-archive/src/stream.rs:149-382 | a stream in which no encryption stands where an archive begins yields the same events and the same end, or the same first error, under every schedule |
| `StreamRuns.PlainBytesChunking` | crates/sar-archive/src/stream.rs:149-382 | the same if no place in the bytes could be taken for the beginning of an encrypted archive, whatever the parser makes of them |
| `StreamRuns.UnencryptedNone` | crates/sar-archive/src/stream.rs:149-382 | a stream that ends well and tells of no encrypted archive is such a stream |
| `StreamRuns.SplitHeader` | crates/sar-archive/src/stream.rs:882-905 | every acceptable encrypted header has a split at which a step between the pieces refuses it, although the header is accepted in one piece |
| `StreamRuns.Concatenation` | crates/sar-archive/src/stream.rs:229-264 | a stream that ends cleanly, followed by another archive, yields its own events and then those of the other archive |
| `StreamErrors.EntersError` | crates/sar-archive/src/stream.rs:942-945 | for all steps: a step leaves the parser in its error state if and only if it was there or the step ends in one of the `set_error` branches (input cut short, a header size below four, an index) |
| `StreamErrors.SecondStep` | crates/sar-archive/src/stream.rs:169-382 | for all failing steps, what a second step does: behind `set_error` a state error, behind a payload that did not decode an internal error, behind a payload that may not be allocated it reads on in that payload, and otherwise the same failure with nothing consumed |
| `StreamErrors.Repeats` | crates/sar-archive/src/stream.rs:169-382 | the second step repeats the error and consumes nothing if and only if the first did not end in `set_error`, a failed decode was itself an internal error, and behind a refused payload the next turn is refused in the same way |
| `StreamErrors.LeavesAlone` | crates/sar-archive/src/stream.rs:169-382 | a failing step leaves phase and unread bytes as its last turn found them if and only if it is none of: `set_error`, a failed decode, an allocation refused after the header was consumed |
| `StreamErrors.TurnFails` | crates/sar-archive/src/stream.rs:169-382 | which phase and how many consumed bytes each kind of failure leaves |
| `StreamErrors.NestedEntry` | crates/sar-archive/src/stream.rs:285-302 | an entry whose payload may not be allocated and begins with the image of another entry: the first step reports the refusal, the second hands out the inner entry |
| `BareEntries.NestedFile` | crates/sar-archive/src/stream.rs:285-302 | an instance for every inner payload and tail: 20-byte headers, an outer payload beyond the limits |
| `BareEntries.ControlRefused` | crates/sar-archive/src/archive.rs:1048-1058 | a whole control entry is an event of the parser and is refused by the reader |
| `BareEntries.ControlEntry` | crates/sar-archive/src/archive.rs:1048-1058 | an instance: twenty bytes that the parser takes for an entry and the reader refuses |
| `StreamParser.StreamArchiveParser.constructor` | crates/sar-archive/src/stream.rs:121-133 | a new parser has read nothing and needs a Global Header |
| `StreamParser.StreamArchiveParser.PushBytes` | crates/sar-archive/src/stream.rs:149-161 | accepts a chunk exactly when everything pushed stays within the archive limit, and then the pushed bytes grow by it |
| `StreamParser.StreamArchiveParser.FinalizeInput` | crates/sar-archive/src/stream.rs:164-166 | declares the end of input and changes nothing else |
| `StreamParser.StreamArchiveParser.Consume` | crates/sar-archive/src/stream.rs:923-940 | moves the absolute offset; the unread part of the buffer stays the pushed bytes from that offset on, whether or not the buffer is compacted |
| `StreamParser.StreamArchiveParser.TurnOnGlobal` | crates/sar-archive/src/stream.rs:172-222 | the turn on a Global Header is the specified one |
| `StreamParser.StreamArchiveParser.TurnOnLfh` | crates/sar-archive/src/stream.rs:229-316 | the turn on a Local File Header is the specified one, consumption before the allocation check included |
| `StreamParser.StreamArchiveParser.TurnOnPayload` | crates/sar-archive/src/stream.rs:317-350 | the turn on a payload is the specified one |
| `StreamParser.StreamArchiveParser.TurnOnTransform` | crates/sar-archive/src/stream.rs:351-355 | the turn on a complete entry is the specified one; the pending entry is taken also when decoding fails |
| `StreamParser.StreamArchiveParser.TurnOnce` | crates/sar-archive/src/stream.rs:171-380 | each turn of the loop is the specified one in every state |
| `StreamParser.StreamArchiveParser.Step` | crates/sar-archive/src/stream.rs:169-382 | result, new state and consumed bytes of `step` are those of the specification |
| `StreamParser.Drive` | crates/sar-archive/src/stream.rs:149-382 | a caller that pushes, steps, finalizes and steps to the end obtains the specified run |
| `HeaderPeek.Required` | crates/sar-archive/src/stream.rs:852-909 | the size is unknown exactly while fewer than eight bytes are there |
| `HeaderPeek.RequiredStable` | crates/sar-archive/src/stream.rs:852-909 | once enough bytes are there, outside the gap, more of them do not change the computed header size |
| `HeaderPeek.RequiredExact` | crates/sar-archive/src/stream.rs:852-909 | the size computed from any bytes that start with an accepted header is that header's exact length, so the length check behind it never fails |
| `HeaderPeek.GapRefused` | crates/sar-archive/src/stream.rs:882-905 | with an incomplete KMS prefix the header is parsed without its extension and refused, as truncated if nothing else is wrong |
| `Agreement.ReadersAgree` | crates/sar-archive/src/stream.rs:229-374 | the push parser tells of one archive with certain entries (offsets, headers, payloads, count) if and only if the seeking reader returns that archive without index and those entries and a TLS exporter payload, if the header has one, parses; control entries, which only the parser accepts, are the exact difference otherwise |
| `Agreement.ExporterHeader` | crates/sar-archive/src/archive.rs:931-938 | of a header with the TLS exporter mode: the reader opens it whatever the payload, the parser accepts it if and only if the payload parses |
| `Agreement.AnyScheduleAgrees` | crates/sar-archive/src/stream.rs:149-382 | an unencrypted archive without index yields what the seeking reader returns, however it is pushed and stepped |
| `Agreement.StartsHeader` | crates/sar-archive/src/archive.rs:885-947 | both ways of computing the header size accept the same headers |
| `Archive.Open` | crates/sar-archive/src/archive.rs:885-1020 | what opening learns lies within the file, and an index is present exactly without NO_INDEX |
| `Archive.OpenIndex` | crates/sar-archive/src/archive.rs:953-1008 | the dictionary lies behind the header and before the footer |
| `Archive.HeaderAt` | crates/sar-archive/src/archive.rs:1036-1056 | an accepted header has at least 20 bytes within the file |
| `Archive.Next` | crates/sar-archive/src/archive.rs:1036-1084 | an entry advances the offset and ends within the Data Area |
| `ArchiveReader.Reader.CollectHeader` | crates/sar-archive/src/archive.rs:887-935 | the bytes collected piece by piece are the prefix of the file of the computed length |
| `ArchiveReader.Reader.ReadIndex` | crates/sar-archive/src/archive.rs:953-1008 | footer, bounds, limits, dictionary, padding and recovery metadata are checked as specified |
| `ArchiveReader.Reader.ReadGlobalHeader` | crates/sar-archive/src/archive.rs:885-1020 | result and new state are those of the specification; nothing changes on failure |
| `ArchiveReader.Reader.NextEntry` | crates/sar-archive/src/archive.rs:1023-1091 | the next entry and offset are the specified ones; nothing changes on failure |
| `ArchiveReader.Reader.Walk` | crates/sar-archive/src/archive.rs:1106-1116 | the loop collects the starts of exactly the entries still to come, or their first error |
| `ArchiveReader.Reader.VerifyArchive` | crates/sar-archive/src/archive.rs:1094-1186 | the report or error is the specified one |
| `DataArea.EntriesAreLaidOut` | crates/sar-archive/src/archive.rs:1023-1091 | the reader returns items from a Data Area if and only if it is the concatenation of printed headers and payloads of admissible entries with those items |
| `DataArea.EntriesTile` | crates/sar-archive/src/archive.rs:1023-1091 | entries tile the Data Area without gap or overlap and take at least 20 bytes each |
| `DataArea.ImageIsNext` | crates/sar-archive/src/archive.rs:1023-1091 | the image of an admissible entry is accepted wherever it lies |
| `DataArea.NextIsImage` | crates/sar-archive/src/archive.rs:1023-1091 | an accepted entry is the image of an admissible one |
| `Verification.VerifiesExactly` | crates/sar-archive/src/archive.rs:1094-1186 | an archive verifies if and only if it opens, its Data Area is laid out as entries, and its dictionary, if any, counts and lists them in order, has a data hash (0x30 to 0x3F) if signed, and recovery and chunk-map blocks that pass their checks; the report counts those entries |
| `Verification.IndexExactly` | crates/sar-archive/src/archive.rs:1107-1180 | the checks of an index pass if and only if counts, offsets and the block ranges 0x10, 0x30 and 0x40 are as stated |
| `ReaderAcceptance.OpensExactly` | crates/sar-archive/src/archive.rs:885-1020 | a file opens as this if and only if it begins with the fields of the header, its key management is acceptable, and it has no index or ends with the fields of the dictionary, zeros and a footer that points to it, within the limits |
| `ReaderAcceptance.DecodesExactly` | crates/sar-archive/src/archive.rs:1400-1639 | an entry decodes to some content if and only if decryption, decompression up to the bound, the patch, the sizes and the text checks lead there, with mode bits and patch kinds spelled out |
| `ReaderAcceptance.AdmissibleExactly` | crates/sar-archive/src/archive.rs:1023-1084 | an entry is accepted, with this content, if and only if its bytes are the fields of its header and a payload of the declared length that decodes so |
| `Verification.VerifiedOffsets` | crates/sar-archive/src/archive.rs:1094-1186 | in a verified indexed archive the dictionary offsets are the starts of entries that tile the Data Area, at least 20 bytes apart, so at most (cd_offset - header_len) / 20 of them |
| `Verification.FooterEndsData` | crates/sar-archive/src/archive.rs:953-970 | the Data Area of an indexed archive ends where the footer points |
| `Entry.PlainDecodes` | crates/sar-archive/src/archive.rs:1479-1582 | an untransformed entry decodes, to its payload, exactly when both declared sizes are its length within the limit |
| `Entry.StoredPatchDecodes` | crates/sar-archive/src/archive.rs:1421-1499 | a stored patch decodes to itself |
| `Entry.GeneratedPatchDecodes` | crates/sar-archive/src/archive.rs:1490-1547 | a stored entry that carries a generated BSDIFF or VCDIFF patch decodes to the target |
| `Entry.DecodeEntry` | crates/sar-archive/src/archive.rs:1400-1639 | the pipeline is the specified one |
| `WriterPlan.PolicyFreezes` | crates/sar-archive/src/archive.rs:2610-2645 | under all three size policies the flags change in the size bit only and not at all after the header is out, and the sizes fit the fields that are written |
| `WriterPlan.FirstUnused` | crates/sar-archive/src/archive.rs:2729-2741 | a chosen nonce was not used before, and none is chosen only if all generated ones were used |
| `WriterSteps.AddKeeps` | crates/sar-archive/src/archive.rs:2648-2852 | every addition, accepted or refused, keeps the invariant: position equals the bytes emitted, the sink is header and entries, the offsets are their starts, flags are frozen after the header, nonces are distinct, recovery bytes cover the sink |
| `WriterSteps.WriteKeeps` | crates/sar-archive/src/archive.rs:2820-2852 | writing keeps the invariant, and the entry is added exactly when the call succeeds, also when tracking fails between header and payload |
| `WriterSteps.EmitKeeps` | crates/sar-archive/src/archive.rs:2577-2608 | emitting the header keeps the invariant and happens once |
| `WriterSteps.OffsetsIncrease` | crates/sar-archive/src/archive.rs:2827-2845 | recorded offsets increase by at least 20 |
| `WriterSteps.RunFreezes` | crates/sar-archive/src/archive.rs:2610-2645 | over every run the flags stay those of the emitted header |
| `WriterSteps.RunMakes` | crates/sar-archive/src/archive.rs:2648-2852 | over every run the invariant holds and the entries are those made for exactly the accepted inputs, in order |
| `WriterSteps.FinishWrites` | crates/sar-archive/src/archive.rs:3280-3338 | a finished archive is the whole image of the added entries; with recovery, the encoder was given exactly the bytes from the Global Flags to the Central Dictionary |
| `WriterSteps.SealCovers` | crates/sar-archive/src/archive.rs:2547-2575 | recovery data is computed only over exactly the protected bytes |
| `WriterSteps.ArchiveOfRun` | crates/sar-archive/src/archive.rs:2648-2852 | every run that finishes leaves the image of the entries made for the accepted inputs, with distinct nonces |
| `WriterSteps.StumblingIsFatal` | crates/sar-archive/src/archive.rs:2547-2575 | over every run with recovery the length check of `finish` fails if and only if some call was refused between collecting the header of its entry and collecting the payload; then `finish` reports an internal error whatever else is added |
| `WriterSteps.LengthCheck` | crates/sar-archive/src/archive.rs:2547-2575 | the length check fails exactly when more was collected than written; if it passes, sealing fails only with the error of the codec over exactly the protected bytes |
| `WriterSteps.AddExcess` | crates/sar-archive/src/archive.rs:2820-2830 | an addition collects in excess if and only if the recovery limits admit its header and refuse header plus payload, and then it reports a limit; in all other cases the excess stays as it is |
| `PlainArchive.RefusedFileIsFatal` | crates/sar-archive/src/archive.rs:2820-2830 | an instance: a file whose header fits the recovery limits and whose payload does not is refused, and the archive cannot be finished whatever is added after it |
| `WriterSteps.FinishAnnounces` | crates/sar-archive/src/archive.rs:3280-3338 | the metadata of a finished archive is of kinds that its flags announce |
| `WriterSteps.StartFits` | crates/sar-archive/src/archive.rs:2355-2521 | a constructed writer meets the conditions of the results about runs |
| `Writer.ArchiveWriter.constructor` | crates/sar-archive/src/archive.rs:2491-2521 | a new writer has emitted nothing |
| `Writer.ArchiveWriter.Collect` | crates/sar-archive/src/archive.rs:2529-2545 | recovery bytes are appended exactly when both limits admit them |
| `Writer.ArchiveWriter.EmitHeader` | crates/sar-archive/src/archive.rs:2577-2608 | result and new state are those of the specification |
| `Writer.ArchiveWriter.ApplySizePolicy` | crates/sar-archive/src/archive.rs:2610-2645 | result and new flags are those of the specification |
| `Writer.ArchiveWriter.ChooseNonce` | crates/sar-archive/src/archive.rs:2729-2741 | the loop finds the first unused nonce and records it |
| `Writer.ArchiveWriter.PatchPayload` | crates/sar-archive/src/archive.rs:2264-2291 | the payload that is stored is the specified one |
| `Writer.ArchiveWriter.SealEntry` | crates/sar-archive/src/archive.rs:2744-2795 | header and payload of an encrypted entry are the specified ones |
| `Writer.ArchiveWriter.WriteEntry` | crates/sar-archive/src/archive.rs:2820-2852 | result and new state are those of the specification |
| `Writer.ArchiveWriter.AddEntry` | crates/sar-archive/src/archive.rs:2648-2818 | result and new state, on success and on every failure, are those of `Add`, whose success and bytes `WriterAcceptance.AddsExactly` and `AddsIsAccepted` give from the input alone |
| `WriterAcceptance.AddsExactly` | crates/sar-archive/src/archive.rs:2648-2852 | for every writer in the middle of a run, with or without recovery, a call succeeds if and only if there is an addition: input consented to, patch and compressed form, sizes under the policy, a header that can go out, the first fresh nonce, FEC and sealing that succeed, recovery limits |
| `WriterAcceptance.AddsIsAccepted` | crates/sar-archive/src/archive.rs:2648-2852 | such a call appends exactly the Global Header if it is the first, the header fields of the input and the payload, and leaves offset, position, flags, used nonces and collected bytes accordingly |
| `WriterAcceptance.AcceptedAdds` | crates/sar-archive/src/archive.rs:2648-2852 | every accepted call is such an addition |
| `WriterAcceptance.InputExactly` | crates/sar-archive/src/archive.rs:2857-2976 | the input check passes if and only if everything given is announced by the flags, permissions, owner and times are given exactly then, lengths fit, a directory is empty, a link is text, and a patch has a base hash |
| `WriterAcceptance.WidthExactly` | crates/sar-archive/src/archive.rs:2610-2645 | long sizes are refused exactly under forced 32 bits or behind a 32-bit header, and otherwise the width of size fields is the stated one |
| `WriterAcceptance.BytesMade` | crates/sar-archive/src/archive.rs:2696-3067 | the header built for an input is, field by field, the literal list of what the input and the flags say |
| `WriterAcceptance.AadMade` | crates/sar-archive/src/archive.rs:2745-2780 | the associated data is the flags section and the header bytes, without FEC size and value where FEC protects the payload |
| `WriterAcceptance.StartsExactly` | crates/sar-archive/src/archive.rs:2355-2521 | a writer is constructed if and only if metadata and recovery have an index, recovery is not given twice and blocks pass; then every flag says what was chosen |
| `WriterAcceptance.FinishesExactly` | crates/sar-archive/src/archive.rs:3280-3338 | finishing succeeds if and only if the header can go out, recovery covers exactly the archive so far, and the dictionary fits |
| `WriterAcceptance.FinishesIsFinished` | crates/sar-archive/src/archive.rs:3280-3338 | it then appends exactly the fields of the dictionary, zeros up to a multiple of eight and the offset of the dictionary |
| `Writer.ArchiveWriter.SealRecovery` | crates/sar-archive/src/archive.rs:2547-2575 | result and new metadata are those of the specification |
| `Writer.ArchiveWriter.WriteIndex` | crates/sar-archive/src/archive.rs:3290-3326 | dictionary, padding and footer are appended as specified |
| `Writer.ArchiveWriter.FinishArchive` | crates/sar-archive/src/archive.rs:3280-3338 | result and new state are those of the specification |
| `RoundTrip.WrittenIsRead` | crates/sar-archive/src/archive.rs:2648-2852 | over every run of a writer that finishes, under all settings (compression, encryption, FEC, patches, recovery), a reader that has the key, whose cipher and decompressor invert the writer's within its limits, and whose limits and parameter checks admit what was stored returns exactly the accepted inputs in order, with names, kinds, metadata and payloads, and verification succeeds and counts them |
| `RoundTrip.WrittenIsParsed` | crates/sar-archive/src/stream.rs:169-382 | the same archive without index, parsed in one piece, yields events of one archive with exactly the accepted inputs, encrypted archives included |
| `RoundTrip.WrittenIsStreamed` | crates/sar-archive/src/stream.rs:149-382 | without encryption it does so pushed in any pieces with any steps between |
| `RoundTrip.WriterIndex` | crates/sar-archive/src/archive.rs:3280-3338 | the index of a writer prints, carries exactly the fields that the flags announce and no unannounced recovery or chunk-map block, so only limits and parameter checks of the reader remain as conditions |
| `ArchiveImage.SoundIsReadable` | crates/sar-archive/src/archive.rs:953-1008 | such an index within the limits, with parameters that check, passes every check of the reader |
| `ArchiveImage.WholeIsRead` | crates/sar-archive/src/archive.rs:885-1186 | any readable entries laid out behind a header, with index, padding and footer, are opened, returned in order and verified |
| `ArchiveImage.IndexIsRead` | crates/sar-archive/src/archive.rs:953-1008 | the dictionary behind a body is found through the footer, with its padding |
| `ArchiveImage.HeadIsRead` | crates/sar-archive/src/archive.rs:885-947 | the emitted header is read back from any bytes that start with it |
| `RoundTrip.EntryDecodes` | crates/sar-archive/src/archive.rs:1400-1639 | every entry that a writer makes decodes to the given payload, through whatever patch, compression, encryption and FEC it was stored |
| `RoundTrip.Decrypted` | crates/sar-archive/src/archive.rs:1448-1476 | decryption with the rebuilt associated data gives back what was encrypted |
| `RoundTrip.Expanded` | crates/sar-archive/src/transform.rs:161-181 | decompression within the limit gives back what was compressed, and a stored payload is copied |
| `RoundTrip.SealedData` | crates/sar-archive/src/archive.rs:1456-1475 | for every sealed entry the data given to the cipher is what a reader rebuilds from the Global Header and the final header bytes, FEC value included |
| `RoundTrip.MadeShape` | crates/sar-archive/src/archive.rs:2744-2818 | header, payload, nonce and FEC value of every made entry, and what it was sealed with |
| `RoundTrip.HeaderDescribes` | crates/sar-archive/src/archive.rs:2982-3060 | what is read back of a header is what was given: names, kind, stream numbers, ownership, times, permissions, checksum and hash |
| `PlainArchive.PlainFileReadsBack` | crates/sar-archive/src/archive.rs:2648-2852 | every plain file for which the reader has room is accepted, finished, read back and verified, with and without an index, so the conditions of the round trip can be met |
| `SealedArchive.SealedFileReadsBack` | crates/sar-archive/src/archive.rs:2648-2852 | every file for which the reader has room is accepted by an encrypting writer, compressing or not, finished, and read back and verified by a reader with the key |
| `SealedArchive.CodecsExist` | crates/sar-archive/src/transform.rs:161-246 | codecs that refuse bounds above the reader's limit and altered tags can undo each other, so the condition on codecs can be met |
| `RoundTrip.DirectoryUnreadable` | crates/sar-archive/src/archive.rs:1614-1618 | under all settings a directory that the writer accepts is refused by every reader, whatever bytes it is given, unless nothing is stored for it |
| `RefusedArchives.DirectoryIsFatal` | crates/sar-archive/src/archive.rs:1614-1618 | over every run: one such directory among the accepted inputs, and no reader, whatever its options, returns the entries of the finished archive |
| `SealedArchive.SealedDirectoryIsFatal` | crates/sar-archive/src/archive.rs:1614-1618 | an instance: a single directory that an encrypting writer accepts and finishes, and that every reader fails on |
| `RefusedArchives.AreaAsWritten` | crates/sar-archive/src/archive.rs:885-1008 | whoever opens a finished archive, under whatever limits, finds the header and the Data Area that were written |
| `RefusedArchives.AllDecode` | crates/sar-archive/src/archive.rs:1023-1091 | a walk over written entries succeeds only if every one of them decodes |
| `RoundTrip.DirectoryReadable` | crates/sar-archive/src/archive.rs:1614-1618 | under all settings a directory is read back if and only if nothing is stored for it: no encryption and an empty encoded payload |
| `RoundTrip.NothingStored` | crates/sar-archive/src/archive.rs:1614-1618 | without a generated patch that is the case exactly without encryption and with a compressor, if any, that makes nothing of nothing; with a generated patch and no compressor it never is |
| `RoundTrip.ModeBits` | crates/sar-archive/src/archive.rs:2990-3016 | the mode bits say what was asked for, and never make a control entry |
| `Lfh.ParsePrint` | crates/sar-core/src/format.rs:455-779 | for every flag combination, reading a written header gives its normal form and full length, whatever follows |
| `Lfh.PrintParse` | crates/sar-core/src/format.rs:455-779 | every accepted header, at least 20 bytes long, is written back byte for byte |
| `Lfh.ParsedNormal` | crates/sar-core/src/format.rs:455-681 | an accepted header respects the limits and is its own normal form |
| `Lfh.AtLeastTwenty` | crates/sar-core/src/format.rs:372-452 | every header has at least 20 bytes |
| `Lfh.Wire` | crates/sar-core/src/format.rs:684-779 | the separately computed size is the number of bytes written |
| `Lfh.SizeCheckRedundant` | crates/sar-core/src/format.rs:641-681 | behind the trailing-length check the size check cannot fail |
| `Lfh.FecFieldsAt` | crates/sar-core/src/format.rs:934-996 | FEC Size is written exactly at the separately computed offset and FEC Value ends the header |
| `Lfh.AadPrinted` | crates/sar-core/src/format.rs:998-1038 | the associated data of a written header is the header without FEC Size and FEC Value |
| `Lfh.AadAgreement` | crates/sar-archive/src/archive.rs:2712-2803 | the associated data from the provisional header equals that rebuilt by a reader from the final header if and only if the FEC fields are excluded or the FEC value is all zeros |
| `Lfh.ComputeSize` | crates/sar-core/src/format.rs:372-452 | the accumulated size is the specified sum |
| `Lfh.FecSizeFieldOffset` | crates/sar-core/src/format.rs:934-996 | the accumulated offset is the specified sum |
| `Lfh.BytesForAad` | crates/sar-core/src/format.rs:998-1038 | the associated data is the specified one |
| `Lfh.WriteLfh` | crates/sar-core/src/format.rs:684-779 | the bytes or error are those of `PrintHeader`, which `WireLayout.WrittenExactly` gives field by field |
| `Lfh.ParseLfh` | crates/sar-core/src/format.rs:455-681 | the header or error is that of `ParseHeader`, which `WireLayout.AcceptedExactly` gives field by field |
| `WireLayout.WrittenExactly` | crates/sar-core/src/format.rs:684-779 | a header is written if and only if its mode is allowed and its fields fit, and then as all its fields in order, behind their total size |
| `WireLayout.AcceptedExactly` | crates/sar-core/src/format.rs:455-681 | exactly the byte strings that begin with the fields of a header that has every optional field its flags announce, within the limits, are accepted, as that header |
| `WireLayout.WrittenInPlace` | crates/sar-core/src/format.rs:684-779 | in every written header the size is at byte 0, mode at 4, stream at 6, sequence at 8, uncompressed size at 10, payload size behind it, and every field at the sum of the widths before it |
| `WireLayout.AcceptedInPlace` | crates/sar-core/src/format.rs:455-681 | the same of every accepted header |
| `LfhFields.CoreBack` | crates/sar-core/src/format.rs:191-209 | the size fields are written back as read, and the values fit the field width |
| `LfhFields.AlgosThere` | crates/sar-core/src/format.rs:483-507 | the algorithm fields are read back in normal form |
| `LfhFields.DigestsThere` | crates/sar-core/src/format.rs:530-567 | nonce, hashes and checksum are read back in normal form |
| `GlobalHeader.TakePrinted` | crates/sar-core/src/format.rs:211-369 | a written header is read back, whatever follows |
| `GlobalHeader.PrintTaken` | crates/sar-core/src/format.rs:211-369 | writing an accepted header restores its bytes if and only if its flag word has no unassigned bit |
| `GlobalHeader.GlobalLength` | crates/sar-core/src/format.rs:211-308 | an accepted header is eight bytes, its flag bytes and the extensions that its flags announce |
| `GlobalHeader.PartitionBack` | crates/sar-core/src/format.rs:211-308 | an accepted partition descriptor is written back byte for byte |
| `GlobalHeader.ParseGlobalHeader` | crates/sar-core/src/format.rs:211-308 | the header and its length, or the error, are the specified ones |
| `GlobalHeader.WriteGlobalHeader` | crates/sar-core/src/format.rs:311-369 | the bytes or error are the specified ones |
| `ContainerLayout.FlagBits` | crates/sar-core/src/flags.rs:8-55 | each flag that is read is its bit of the four flag bytes |
| `ContainerLayout.WrittenFlags` | crates/sar-core/src/flags.rs:8-55 | in the flag bytes that are written each flag is its bit and no other bit is set |
| `ContainerLayout.GlobalWritten` | crates/sar-core/src/format.rs:311-369 | a Global Header is written if and only if flags, parts and lengths agree, and then as its fields in order |
| `ContainerLayout.GlobalAccepted` | crates/sar-core/src/format.rs:211-308 | exactly the byte strings that begin with the fields of a consistent header within the limits are accepted, as that header |
| `Flags.WordRoundTrip` | crates/sar-core/src/flags.rs:8-55 | flags survive their word |
| `Flags.TruncationExact` | crates/sar-core/src/flags.rs:8-55 | truncating a word to the assigned bits loses nothing exactly when no other bit is set |
| `CentralDictionary.TakePrinted` | crates/sar-core/src/format.rs:782-894 | a written dictionary is read back within the limits, whatever follows |
| `CentralDictionary.PrintTaken` | crates/sar-core/src/format.rs:782-894 | an accepted dictionary is written back as exactly the consumed bytes |
| `CentralDictionary.FooterRoundTrip` | crates/sar-core/src/format.rs:897-911 | a footer is read back |
| `CentralDictionary.ParseCentralDictionary` | crates/sar-core/src/format.rs:782-847 | the dictionary and its length, or the error, are the specified ones |
| `CentralDictionary.WriteCentralDictionary` | crates/sar-core/src/format.rs:850-894 | the bytes or error are the specified ones |
| `ContainerLayout.DictionaryWritten` | crates/sar-core/src/format.rs:850-894 | a dictionary is written if and only if counts, offsets, announced parts and metadata fit, and then as its fields in order |
| `ContainerLayout.DictionaryAccepted` | crates/sar-core/src/format.rs:782-847 | exactly the byte strings that begin with the fields of such a dictionary within the limits are accepted, as that dictionary |
| `ContainerLayout.FooterIs` | crates/sar-core/src/format.rs:897-911 | the footer is the offset as the weighted sum of eight bytes, both ways |
| `Tlv.ParsePrint` | crates/sar-core/src/tlv.rs:46-113 | written blocks are read back within the limits |
| `Tlv.PrintParse` | crates/sar-core/src/tlv.rs:46-113 | accepted bytes are written back exactly, padding included |
| `Tlv.PrintLength` | crates/sar-core/src/tlv.rs:20-26 | the output length is the sum of the encoded lengths and a multiple of 8 |
| `Tlv.EncodedLen` | crates/sar-core/src/tlv.rs:20-26 | an encoded block is a positive multiple of 8 bytes |
| `Tlv.ParseTlvs` | crates/sar-core/src/tlv.rs:46-90 | the blocks or error are the specified ones |
| `Tlv.WriteTlvs` | crates/sar-core/src/tlv.rs:93-113 | the bytes or error are the specified ones |
| `ContainerLayout.BlocksWritten` | crates/sar-core/src/tlv.rs:93-113 | blocks are written if and only if all types and lengths are allowed, and then as type, length, value and zeros up to a multiple of eight |
| `ContainerLayout.BlocksAccepted` | crates/sar-core/src/tlv.rs:46-90 | exactly such bytes within the limits are accepted |
| `Io.IntThere` | crates/sar-core/src/io.rs:47-126 | an integer that fits is read back, whatever follows |
| `Io.IntBack` | crates/sar-core/src/io.rs:47-126 | a read integer is written back as the consumed bytes |
| `Io.ParseCursor.ReadBytes` | crates/sar-core/src/io.rs:33-45 | the bytes or the truncation error, and the new position, are the specified ones |
| `Io.ParseCursor.ReadInt` | crates/sar-core/src/io.rs:47-76 | the integer or error, and the new position, are the specified ones |
| `VcdiffWindow.WindowSemantics` | crates/sar-delta/src/vcdiff.rs:779-950 | a successful window is the unique byte string that follows its instructions as the decoder reads them; it has the declared length and all sections are consumed. Source and window together obey the instructions, and are the only string that does, if and only if no COPY starts where the 64-bit index has wrapped around; none does while the earlier output is no longer than the source segment |
| `Vcdiff.TakeWindowSemantics` | crates/sar-delta/src/vcdiff.rs:644-775 | the same for every accepted window of a patch, with the instructions, the source segment and the lengths that its bytes encode |
| `Vcdiff.WindowsSemantics` | crates/sar-delta/src/vcdiff.rs:590-641 | an accepted stream is a concatenation of windows that obey their instructions if and only if no COPY of any of them starts behind the wrap |
| `Vcdiff.LateCopy` | crates/sar-delta/src/vcdiff.rs:895-935 | a family of two-window patches: a COPY outside its superstring is accepted and returns bytes of the first window |
| `VcdiffWindow.CopyAccepts` | crates/sar-delta/src/vcdiff.rs:895-935 | a COPY of one byte or more that ends within 64 bits is accepted if and only if it ends at or before the current position or its address plus the window start reaches source length plus 2^64 |
| `VcdiffWindow.WrappedBytes` | crates/sar-delta/src/vcdiff.rs:909-925 | in the second case it returns exactly the bytes of earlier windows at the wrapped index |
| `VcdiffWindow.OpAgrees` | crates/sar-delta/src/vcdiff.rs:850-935 | in all other cases an accepted instruction is legal and appends what it should |
| `VcdiffWindow.FollowsUnique` | crates/sar-delta/src/vcdiff.rs:779-950 | two windows that follow the same instructions are equal |
| `VcdiffWindow.WindowDerives` | crates/sar-delta/src/vcdiff.rs:779-950 | every successful window derives from its sections by its instructions, leaving none of them |
| `VcdiffWindow.ObeysUnique` | crates/sar-delta/src/vcdiff.rs:779-950 | two strings with the same source that obey the same instructions are equal |
| `VcdiffWindow.CopyAccepted` | crates/sar-delta/src/vcdiff.rs:895-935 | the same condition for the decoder step: within the window a COPY is accepted if and only if its size is zero or it ends within 64 bits and either ends at or before the current position or starts behind the wrap |
| `VcdiffWindow.WriteCopy` | crates/sar-delta/src/vcdiff.rs:895-935 | a COPY that reads the buffer being written is accepted and appends its bytes as the decoder's index, wrap-around included, says |
| `VcdiffWindow.RunWindow` | crates/sar-delta/src/vcdiff.rs:800-950 | the instruction loop writes exactly the specified window into the buffer, or fails as specified |
| `VcdiffWindow.ApplyInstructions` | crates/sar-delta/src/vcdiff.rs:779-950 | the output grows by exactly the specified window |
| `AddrCache.NearIsLastFour` | crates/sar-delta/src/vcdiff.rs:321-385 | the near cache holds the last four addresses in ring order |
| `AddrCache.NearStartsZero` | crates/sar-delta/src/vcdiff.rs:327-336 | slots not yet written are zero |
| `AddrCache.SameIsLatest` | crates/sar-delta/src/vcdiff.rs:321-385 | each same slot holds the latest address congruent to it modulo 768 |
| `AddrCache.SameStartsZero` | crates/sar-delta/src/vcdiff.rs:327-336 | a same slot without such an address is zero |
| `AddrCache.Cache.DecodeAddress` | crates/sar-delta/src/vcdiff.rs:339-376 | an address is decoded from history, mode and reader as specified |
| `AddrCache.Cache.Update` | crates/sar-delta/src/vcdiff.rs:378-385 | both caches follow the history extended by the address |
| `AddrCache.SelfAndHereBack` | crates/sar-delta/src/vcdiff.rs:339-376 | an address written as itself or as a distance from here is decoded again |
| `AddrCache.NearBack` | crates/sar-delta/src/vcdiff.rs:339-376 | an address written as a distance from a near slot is decoded again |
| `AddrCache.SameBack` | crates/sar-delta/src/vcdiff.rs:339-376 | an address written as the byte of its same slot is decoded again |
| `CodeTable.CodesDistinct` | crates/sar-delta/src/vcdiff.rs:147-194 | no two codes mean the same, and every mode in the table is below 9, so the invalid-mode error is unreachable |
| `CodeTable.Build` | crates/sar-delta/src/vcdiff.rs:147-194 | the filling loops build the closed form of the table |
| `CodeTable.CodesAre` | crates/sar-delta/src/vcdiff.rs:147-194 | every code of the table, row by row, with literal sizes and modes |
| `Varint.VarintAccepted` | crates/sar-delta/src/vcdiff.rs:272-293 | a terminated varint with any suffix is accepted exactly when its value is below 2^64 |
| `Varint.UnterminatedRefused` | crates/sar-delta/src/vcdiff.rs:272-293 | a varint without a last byte is refused |
| `Varint.EncodeDenotes` | crates/sar-delta/src/vcdiff.rs:389-405 | an encoded value is terminated and denotes the value |
| `Varint.VarintRoundTrip` | crates/sar-delta/src/vcdiff.rs:272-405 | every 64-bit value is read back, whatever follows |
| `Varint.EncodeVarint` | crates/sar-delta/src/vcdiff.rs:389-405 | the loop and reversal compute the specified encoding |
| `Varint.ByteReader.ReadVarint` | crates/sar-delta/src/vcdiff.rs:272-293 | value or error, and the new position, are the specified ones |
| `Vcdiff.RoundTrip` | crates/sar-delta/src/vcdiff.rs:432-775 | whenever generation succeeds, applying the patch under the same limits to any base gives the target |
| `Vcdiff.PackedDelta` | crates/sar-delta/src/vcdiff.rs:700-760 | a delta encoding written out is read back, whatever follows |
| `Vcdiff.Apply` | crates/sar-delta/src/vcdiff.rs:566-641 | the output or error is the meaning of the stream; what written streams mean is `VcdiffWriting.WrittenApplies` |
| `Vcdiff.DecodeWindow` | crates/sar-delta/src/vcdiff.rs:644-775 | a window is decoded as `TakeWindow` says, which for every window written out is `VcdiffWriting.WindowIsTaken` |
| `VcdiffWriting.WrittenApplies` | crates/sar-delta/src/vcdiff.rs:566-641 | every stream of windows that copy from the base (1), from earlier output (2) or from neither, written out byte by byte, applies to the concatenation of what their instructions say |
| `VcdiffWriting.WindowIsTaken` | crates/sar-delta/src/vcdiff.rs:644-775 | one such window, with its segment, lengths and sections at their places, is read with exactly the stated slice of the base or of the output as its source |
| `VcdiffWriting.WrittenDecodes` | crates/sar-delta/src/vcdiff.rs:777-935 | every list of ADD, RUN and COPY instructions that describes a window, encoded one by one, decodes to that window |
| `VcdiffWriting.BaseSliceCopied` | crates/sar-delta/src/vcdiff.rs:566-775 | a single COPY of a slice of the base yields that slice |
| `VcdiffWriting.HeaderExactly` | crates/sar-delta/src/vcdiff.rs:566-600 | which first bytes of a stream are accepted |
| `VcdiffWriting.SegmentRefused` | crates/sar-delta/src/vcdiff.rs:660-700 | a segment outside the base or the output is refused |
| `Vcdiff.Generate` | crates/sar-delta/src/vcdiff.rs:432-547 | the patch or error is the specified one |
| `Bsdiff.RoundTrip` | crates/sar-delta/src/bsdiff.rs:111-546 | whenever generation succeeds, applying the patch under the same limits gives the target for every base that shares the compared prefix |
| `Bsdiff.Conservation` | crates/sar-delta/src/bsdiff.rs:188-406 | an accepted patch has length 32 + 24 n + target, the base cursor is never negative at a triple, and the target cursor ascends from zero to the end |
| `Bsdiff.IntRoundTrip` | crates/sar-delta/src/bsdiff.rs:416-422 | an integer survives encoding if and only if it is not `i64::MIN`, which becomes zero |
| `Bsdiff.PatchedDifference` | crates/sar-delta/src/bsdiff.rs:300-345 | adding the difference modulo 256 restores the target |
| `Bsdiff.Apply` | crates/sar-delta/src/bsdiff.rs:111-406 | the target or error is the meaning of the patch, which `BsdiffMeaning.AppliesExactly` gives byte by byte |
| `Bsdiff.ApplyBlocks` | crates/sar-delta/src/bsdiff.rs:188-406 | the loop over control triples is the fold that `BsdiffMeaning.AppliesExactly` unfolds into sums over base, diff and extra bytes |
| `BsdiffMeaning.AppliesExactly` | crates/sar-delta/src/bsdiff.rs:111-406 | a patch yields a target if and only if header and blocks are as stated and every triple fits, each diffed byte of the target is the diff byte plus the base byte at the running base position modulo 256, and each inserted byte is the extra byte |
| `BsdiffMeaning.SplitExactly` | crates/sar-delta/src/bsdiff.rs:111-187 | the header is accepted if and only if magic, lengths and limits are as stated |
| `Bsdiff.WriteDiff` | crates/sar-delta/src/bsdiff.rs:300-345 | the inner loop writes base plus difference and nothing before it |
| `Bsdiff.Generate` | crates/sar-delta/src/bsdiff.rs:449-546 | the patch or error is the specified one |
| `FastCdc.ChunksPartition` | crates/sar-cdc/src/fastcdc.rs:140-190 | chunks cover the data contiguously; lengths lie in [1, max], and all but the last reach min |
| `FastCdc.RestartAtBoundary` | crates/sar-cdc/src/fastcdc.rs:140-190 | chunking from any boundary gives the remaining chunks shifted |
| `FastCdc.AppendKeepsChunks` | crates/sar-cdc/src/fastcdc.rs:140-190 | appending bytes changes no chunk that starts at least max before the old end, nor any before it |
| `FastCdc.HashIsLocal` | crates/sar-cdc/src/fastcdc.rs:203-227 | the low b bits of the hash depend only on the last b bytes |
| `FastCdc.CutTestIsLocal` | crates/sar-cdc/src/fastcdc.rs:212-227 | the start of a chunk matters to a cut test only by choosing the mask |
| `FastCdc.ChunkEndIsLocal` | crates/sar-cdc/src/fastcdc.rs:194-231 | a chunk has a length if and only if local tests first succeed there, or none does and it is the limit; `CutPoints.EndsExactly` spells the tests out |
| `FastCdc.MaskForSize` | crates/sar-cdc/src/fastcdc.rs:117-124 | the mask has as many low bits as the size has whole powers of two |
| `FastCdc.FindCut` | crates/sar-cdc/src/fastcdc.rs:194-231 | the two-phase loop finds the specified cut, which `CutPoints.EndsExactly` gives in closed form |
| `FastCdc.ChunkData` | crates/sar-cdc/src/fastcdc.rs:140-190 | bad bounds are reported exactly unless 64 <= min <= avg <= max; otherwise the chunks, or too many of them, are those that `CutPoints.ChunksExactly` characterises |
| `CutPoints.ChunksExactly` | crates/sar-cdc/src/fastcdc.rs:140-190 | a list is what the chunker produces if and only if every chunk starts where the last ended, has its digest and ends at the first offset whose test passes, or at the limit |
| `CutPoints.EndsExactly` | crates/sar-cdc/src/fastcdc.rs:194-231 | where a chunk ends, with both mask widths spelled out: the power of two below half the average before it and below the average from there on |
| `CutPoints.HashIsWeighted` | crates/sar-cdc/src/fastcdc.rs:203-227 | the rolling hash is the weighted sum of the gear values modulo 2^64 |
| `FastCdc.ValidateMetadata` | crates/sar-cdc/src/validate.rs:164-203 | a table is accepted if and only if it is contiguous from zero, without empty chunks, within its limits and, for a known size, exactly covering; otherwise the error is that of the first entry at fault |
| `FastCdc.ChunkTablesValidate` | crates/sar-cdc/src/validate.rs:164-203 | every produced chunk table passes validation |

## Left out

- Bsdiff.ApplyTriple: says exactly which triples are accepted; all refusals of the loop are one error kind.
- Agreement.ReadersAgree: compares successful runs; the error kinds of the two readers differ.
- Compression, AEAD, KMS payloads and key handling: foreign libraries, parameters here.
- XOR and Reed-Solomon codecs with their parameter checks (of which the algorithm alone is modelled), fragmentation, logical files, repair, transport: separate crates.
- `audit` and `read_all_logical_files` of the reader: variants of the modelled walk.
- `write_sparse_entry`, sparse maps and chunk maps: the same writer path and fixed-width round trips.
- Assembly of entry metadata and field presence: long but branch-local.
- The phase that the writer reports through `stream_state`, and the size check when a reader is constructed: one assignment or comparison each.
- Registry validators, status codes, compliance profiles, command line, vectors, fuzz targets: finite tables and interface code.
- Failing reads and writes of the underlying source and sink.
