/** The cursor-driven readers and the writers of the Local File Header field groups. */
module LfhIo {
  import opened Bytes
  import opened Io
  import opened Flags
  import opened LfhFields

  method ReadCore(f: GlobalFlags, mode: u16, c: ParseCursor) returns (r: Result<Core, SarError>)
    requires c.Valid()
    modifies c
    ensures c.Valid() && Agrees(r, c.Rest(), TakeCore(f, mode, old(c.Rest())))
  {
    hide TakeInt, ParseCursor.Valid, ParseCursor.Rest;
    Widths();
    var streamId :- c.ReadInt(2);
    var sequenceNo :- c.ReadInt(2);
    var uncompressed :- c.ReadInt(SizeWidth(f));
    var payload :- c.ReadInt(SizeWidth(f));
    return Ok(Core(mode, streamId, sequenceNo, uncompressed, payload));
  }

  method WriteCore(f: GlobalFlags, g: Core, w: BinaryWriter)
    modifies w
    ensures w.buf == old(w.buf) + PutCore(f, g)
  {
    hide LE;
    var n := SizeWidth(f);
    w.WriteInt(g.streamId, 2);
    w.WriteInt(g.sequenceNo, 2);
    w.WriteInt(g.uncompressed, n);
    w.WriteInt(g.payload, n);
    Append4(old(w.buf), LE(g.streamId, 2), LE(g.sequenceNo, 2), LE(g.uncompressed, n), LE(g.payload, n));
  }

  method ReadAlgos(f: GlobalFlags, c: ParseCursor) returns (r: Result<Algos, SarError>)
    requires c.Valid()
    modifies c
    ensures c.Valid() && Agrees(r, c.Rest(), TakeAlgos(f, old(c.Rest())))
  {
    hide TakeOptInt, TakeOptRaw, ParseCursor.Valid, ParseCursor.Rest;
    Widths();
    var comp :- c.ReadOptInt(f.compressed, 1);
    var patch :- c.ReadOptInt(f.delta, 1);
    var encr :- c.ReadOptInt(f.encrypted, 1);
    var cdc :- c.ReadOptInt(f.cdc, 1);
    var fec :- c.ReadOptInt(f.selectiveFec, 1);
    return Ok(Algos(comp, patch, encr, cdc, fec));
  }

  method WriteAlgos(f: GlobalFlags, g: Algos, w: BinaryWriter)
    modifies w
    ensures w.buf == old(w.buf) + PutAlgos(f, g)
  {
    hide OptInt, OptRaw;
    w.WriteOptInt(f.compressed, 1, g.comp);
    w.WriteOptInt(f.delta, 1, g.patch);
    w.WriteOptInt(f.encrypted, 1, g.encr);
    w.WriteOptInt(f.cdc, 1, g.cdc);
    w.WriteOptInt(f.selectiveFec, 1, g.fec);
    Append5(old(w.buf), OptInt(f.compressed, 1, g.comp), OptInt(f.delta, 1, g.patch),
            OptInt(f.encrypted, 1, g.encr), OptInt(f.cdc, 1, g.cdc), OptInt(f.selectiveFec, 1, g.fec));
  }

  method ReadFragment(f: GlobalFlags, c: ParseCursor) returns (r: Result<Fragment, SarError>)
    requires c.Valid()
    modifies c
    ensures c.Valid() && Agrees(r, c.Rest(), TakeFragment(f, old(c.Rest())))
  {
    hide TakeOptInt, TakeOptRaw, ParseCursor.Valid, ParseCursor.Rest;
    Widths();
    var id :- c.ReadOptInt(f.fragmentation, 4);
    var index :- c.ReadOptInt(f.fragmentation, 4);
    var offset :- c.ReadOptInt(f.fragmentation, 8);
    var size :- c.ReadOptInt(f.fragmentation, 4);
    return Ok(Fragment(id, index, if f.fragmentation then Some(Descriptor(offset.value, size.value)) else None));
  }

  method WriteFragment(f: GlobalFlags, g: Fragment, w: BinaryWriter)
    modifies w
    ensures w.buf == old(w.buf) + PutFragment(f, g)
  {
    hide OptInt, OptRaw;
    w.WriteOptInt(f.fragmentation, 4, g.id);
    w.WriteOptInt(f.fragmentation, 4, g.index);
    w.WriteOptInt(f.fragmentation, 8, g.Offset());
    w.WriteOptInt(f.fragmentation, 4, g.Size());
    Append4(old(w.buf), OptInt(f.fragmentation, 4, g.id), OptInt(f.fragmentation, 4, g.index),
            OptInt(f.fragmentation, 8, g.Offset()), OptInt(f.fragmentation, 4, g.Size()));
  }

  method ReadDigests(f: GlobalFlags, c: ParseCursor) returns (r: Result<Digests, SarError>)
    requires c.Valid()
    modifies c
    ensures c.Valid() && Agrees(r, c.Rest(), TakeDigests(f, old(c.Rest())))
  {
    hide TakeOptInt, TakeOptRaw, ParseCursor.Valid, ParseCursor.Rest;
    Widths();
    var ivNonce :- c.ReadOptRaw(f.encrypted, 24);
    var baseHash :- c.ReadOptRaw(f.delta, 32);
    var crc32 :- c.ReadOptInt(f.fileCrc, 4);
    var contentHash :- c.ReadOptRaw(f.dedup, 32);
    return Ok(Digests(ivNonce, baseHash, crc32, contentHash));
  }

  method WriteDigests(f: GlobalFlags, g: Digests, w: BinaryWriter)
    modifies w
    ensures w.buf == old(w.buf) + PutDigests(f, g)
  {
    hide OptInt, OptRaw;
    w.WriteOptRaw(f.encrypted, 24, g.ivNonce);
    w.WriteOptRaw(f.delta, 32, g.baseHash);
    w.WriteOptInt(f.fileCrc, 4, g.crc32);
    w.WriteOptRaw(f.dedup, 32, g.contentHash);
    Append4(old(w.buf), OptRaw(f.encrypted, 24, g.ivNonce), OptRaw(f.delta, 32, g.baseHash),
            OptInt(f.fileCrc, 4, g.crc32), OptRaw(f.dedup, 32, g.contentHash));
  }

  method ReadPosix(f: GlobalFlags, c: ParseCursor) returns (r: Result<Posix, SarError>)
    requires c.Valid()
    modifies c
    ensures c.Valid() && Agrees(r, c.Rest(), TakePosix(f, old(c.Rest())))
  {
    hide TakeOptInt, TakeOptRaw, ParseCursor.Valid, ParseCursor.Rest;
    Widths();
    var uidGid :- c.ReadOptInt(f.uidGid, 4);
    var mtime :- c.ReadOptInt(f.time, 8);
    var atime :- c.ReadOptInt(f.time, 8);
    var ctime :- c.ReadOptInt(f.time, 8);
    var permissions :- c.ReadOptInt(f.perms, 2);
    return Ok(Posix(uidGid, if f.time then Some(Times(mtime.value, atime.value, ctime.value)) else None, permissions));
  }

  method WritePosix(f: GlobalFlags, g: Posix, w: BinaryWriter)
    modifies w
    ensures w.buf == old(w.buf) + PutPosix(f, g)
  {
    hide OptInt, OptRaw;
    w.WriteOptInt(f.uidGid, 4, g.uidGid);
    w.WriteOptInt(f.time, 8, g.Mtime());
    w.WriteOptInt(f.time, 8, g.Atime());
    w.WriteOptInt(f.time, 8, g.Ctime());
    w.WriteOptInt(f.perms, 2, g.permissions);
    Append5(old(w.buf), OptInt(f.uidGid, 4, g.uidGid), OptInt(f.time, 8, g.Mtime()),
            OptInt(f.time, 8, g.Atime()), OptInt(f.time, 8, g.Ctime()), OptInt(f.perms, 2, g.permissions));
  }
}
