/** The protocol-27 codec as it runs. */
module FileListCodec27 {
  import opened Seqs
  import opened Wire
  import opened FileEntry
  import opened Lengths
  import L = FileList27

  class Rsync27FileListWriter {
    const includeChecksums: bool
    var lastMode: Option<u32>
    var lastMtime: Option<i64>
    var finished: bool

    function Now(): L.State
      reads this
    {
      L.State(lastMode, lastMtime)
    }

    constructor (checksums: bool)
      ensures includeChecksums == checksums && Now() == L.INITIAL && !finished
    {
      includeChecksums := checksums;
      lastMode, lastMtime, finished := None, None, false;
    }

    method WriteBatch(w: Sink, es: seq<Entry>) returns (r: Result<()>)
      modifies this, w
      ensures finished == old(finished)
      ensures old(finished) ==> r == Err(InvalidInput) && w.out == old(w.out)
      ensures !old(finished) ==> Writes(r, old(w.out), w.out, L.EncodeEntries(includeChecksums, old(Now()), es))
      ensures r.Ok? ==> Now() == L.StateAfter(old(Now()), es)
      ensures r.Err? && !finished ==>
                exists k :: L.BreaksOff(includeChecksums, old(Now()), es, k, r.error, old(w.out), w.out, Now())
    {
      hide L.EncodeEntry, L.EncodeEntries, L.StateAfter, L.Recorded;
      if finished {
        return Err(InvalidInput);
      }
      ghost var st, start := Now(), w.out;
      ghost var sent: seq<byte> := [];
      var i := 0;
      NothingYet(includeChecksums, st, es);
      while i < |es|
        invariant 0 <= i <= |es| && !finished && Now() == L.StateAfter(st, es[..i])
        invariant L.EncodeEntries(includeChecksums, st, es[..i]) == Ok(sent) && w.out == start + sent
      {
        ghost var one := L.EncodeEntry(includeChecksums, Now(), es[i]);
        OneMore(includeChecksums, st, es, i);
        var written := WriteEntry(w, es[i]);
        if written.Err? {
          assert L.BreaksOff(includeChecksums, st, es, i, written.error, start, w.out, Now());
          return written;
        }
        Regroup(start, sent, one.value);
        sent := sent + one.value;
        i := i + 1;
      }
      assert es[..i] == es;
      r := Ok(());
    }

    static lemma NothingYet(checksums: bool, st: L.State, es: seq<Entry>)
      ensures L.EncodeEntries(checksums, st, es[..0]) == Ok([]) && L.StateAfter(st, es[..0]) == st
    {
    }

    // The first error of a batch is the batch's error.
    static lemma OneMore(checksums: bool, st: L.State, es: seq<Entry>, i: nat)
      requires i < |es| && L.EncodeEntries(checksums, st, es[..i]).Ok?
      ensures var one := L.EncodeEntry(checksums, L.StateAfter(st, es[..i]), es[i]);
              && (one.Ok? ==>
                  L.EncodeEntries(checksums, st, es[..i + 1])
                    == Ok(L.EncodeEntries(checksums, st, es[..i]).value + one.value))
              && (one.Err? ==> L.EncodeEntries(checksums, st, es) == Err(one.error))
              && L.StateAfter(st, es[..i + 1]) == L.Recorded(es[i])
    {
      hide L.EncodeEntry;
      assert es[..i + 1] == es[..i] + [es[i]] && es == es[..i] + es[i..];
      L.SplitIndependence(checksums, st, es[..i], [es[i]]);
      L.SplitIndependence(checksums, st, es[..i], es[i..]);
      var one := L.EncodeEntry(checksums, L.StateAfter(st, es[..i]), es[i]);
      assert [es[i]][1..] == [];
      assert one.Ok? ==> one.value + [] == one.value;
    }

    method WriteEntry(w: Sink, e: Entry) returns (r: Result<()>)
      modifies this`lastMode, this`lastMtime, w
      ensures Writes(r, old(w.out), w.out, L.EncodeEntry(includeChecksums, old(Now()), e))
      ensures r.Ok? ==> Now() == L.Recorded(e)
      ensures r.Err? ==> Now() == old(Now())
    {
      hide ToWirePath, L.Status, EncodeLong;
      ghost var st, before := Now(), w.out;
      var _ :- WritePath(w, e);
      var _ :- WriteLong(w, e.len);
      var _ :- WriteTime(w, e);
      if lastMode != Some(e.mode) {
        w.WriteAll(Le(e.mode, 4));
      }
      if includeChecksums && e.fileType.File? {
        if e.checksum.None? {
          return Err(MissingChecksum);
        }
        w.WriteAll(e.checksum.value);
      }
      AllParts(before, L.EncodePath(st, e).value, EncodeLong(e.len).value, L.EncodeTime(st, e).value,
               L.EncodeMode(st, e), L.EncodeChecksum(includeChecksums, e).value);
      lastMode, lastMtime := Some(e.mode), Some(e.mtime);
      r := Ok(());
    }

    method WritePath(w: Sink, e: Entry) returns (r: Result<()>)
      modifies w
      ensures Writes(r, old(w.out), w.out, L.EncodePath(Now(), e))
    {
      hide ToWirePath, Le;
      ghost var before := w.out;
      var path := ToWirePath(e.path);
      var status: nat := L.LONG_NAME;
      if lastMode == Some(e.mode) {
        status := status + L.SAME_MODE;
      }
      if lastMtime == Some(e.mtime) {
        status := status + L.SAME_TIME;
      }
      if e.fileType.Directory? && e.path == TOP_DIR_PATH {
        status := status + L.TOP_DIR;
      }
      assert status == L.Status(Now(), e);
      w.WriteAll([status]);
      if |path| > I32_MAX {
        return Err(PathTooLong);
      }
      var length := Le(|path|, 4);
      w.WriteAll(length);
      w.WriteAll(path);
      Regroup(before, [status], length);
      Regroup(before, [status] + length, path);
      r := Ok(());
    }

    method WriteTime(w: Sink, e: Entry) returns (r: Result<()>)
      modifies w
      ensures Writes(r, old(w.out), w.out, L.EncodeTime(Now(), e))
    {
      if lastMtime != Some(e.mtime) {
        if !(-0x8000_0000 <= e.mtime <= I32_MAX) {
          return Err(InvalidInput);
        }
        w.WriteAll(Le(Unsigned32(e.mtime), 4));
      }
      r := Ok(());
    }

    method Finish(w: Sink) returns (r: Result<()>)
      modifies this`finished, w
      ensures r == Ok(()) && finished && w.out == old(w.out) + if old(finished) then [] else [0]
    {
      if !finished {
        w.WriteAll([0]);
        finished := true;
      }
      r := Ok(());
    }
  }

  lemma AllParts(x: seq<byte>, a: seq<byte>, b: seq<byte>, c: seq<byte>, d: seq<byte>, e: seq<byte>)
    ensures x + a + b + c + d + e == x + (a + (b + (c + (d + e))))
    ensures e == [] ==> x + a + b + c + d == x + (a + (b + (c + (d + e))))
    ensures d == [] ==> x + a + b + c + e == x + (a + (b + (c + (d + e))))
  {
    assert x + a + b + c + d + e == x + a + b + c + (d + e);
    assert x + a + b + c + (d + e) == x + a + b + (c + (d + e));
    assert x + a + b + (c + (d + e)) == x + a + (b + (c + (d + e)));
    assert x + a + (b + (c + (d + e))) == x + (a + (b + (c + (d + e))));
    assert e == [] ==> d + e == d;
    assert d == [] ==> d + e == e;
    assert x + a + b + c + [] == x + a + b + c;
  }

  // The reading loop.

  method ReadPath(reader: Source, lim: Limits, last: seq<byte>, status: byte) returns (r: Result<seq<byte>>)
    modifies reader
    ensures Reads(r, reader.rest, L.DecodePath(lim, last, status, old(reader.rest)))
  {
    hide L.Has;
    var inherited: nat := 0;
    if L.Has(status, L.SAME_NAME) {
      var b :- reader.ReadByte();
      inherited := b;
    }
    if inherited > |last| {
      return Err(InvalidData);
    }
    var suffixLen: nat := 0;
    if L.Has(status, L.LONG_NAME) {
      var n :- reader.ReadI32();
      if n < 0 {
        return Err(InvalidData);
      }
      suffixLen := n;
    } else {
      var b :- reader.ReadByte();
      suffixLen := b;
    }
    if inherited + suffixLen > lim.maxPathLen {
      return Err(InvalidData);
    }
    var suffix :- reader.ReadExact(suffixLen);
    r := Ok(last[..inherited] + suffix);
  }

  method ReadTime(reader: Source, lastMtime: Option<i64>, status: byte, ghost st: L.State) returns (r: Result<i64>)
    requires st.mtime == lastMtime
    modifies reader
    ensures Reads(r, reader.rest, L.DecodeTime(st, status, old(reader.rest)))
  {
    if L.Has(status, L.SAME_TIME) {
      return if lastMtime.Some? then Ok(lastMtime.value) else Err(InvalidData);
    }
    var t :- reader.ReadI32();
    r := Ok(t);
  }

  method ReadMode(reader: Source, lastMode: Option<u32>, status: byte, ghost st: L.State) returns (r: Result<u32>)
    requires st.mode == lastMode
    modifies reader
    ensures Reads(r, reader.rest, L.DecodeMode(st, status, old(reader.rest)))
  {
    if L.Has(status, L.SAME_MODE) {
      return if lastMode.Some? then Ok(lastMode.value) else Err(InvalidData);
    }
    r := reader.ReadU32();
  }

  method ReadEntry(reader: Source, checksums: bool, lim: Limits, last: seq<byte>, st: L.State, status: byte)
    returns (r: Result<Entry>)
    modifies reader
    ensures Reads(r, reader.rest, L.DecodeEntry(checksums, lim, last, st, status, old(reader.rest)))
  {
    hide L.DecodePath, DecodeLong, L.DecodeTime, L.DecodeMode, WirePathFromBytes, FileTypeFromMode, L.Has;
    var pathBytes :- ReadPath(reader, lim, last, status);
    var len :- ReadLong(reader);
    var mtime :- ReadTime(reader, st.mtime, status, st);
    var mode :- ReadMode(reader, st.mode, status, st);
    var path :- WirePathFromBytes(pathBytes);
    var fileType :- FileTypeFromMode(mode);
    var sum: Option<Checksum> := None;
    if checksums && fileType.File? {
      var b :- reader.ReadExact(16);
      sum := Some(b);
    }
    r := Ok(Entry(path, fileType, len, mtime, mode, sum, None, L.NO_METADATA));
  }

  method ReadFileList(reader: Source, checksums: bool, lim: Limits) returns (r: Result<seq<Entry>>)
    modifies reader
    ensures Reads(r, reader.rest, L.DecodeList(checksums, lim, old(reader.rest)))
  {
    hide L.DecodeEntry;
    var entries: seq<Entry> := [];
    var lastPath: seq<byte> := [];
    var last := L.INITIAL;
    while true
      invariant L.DecodeList(checksums, lim, old(reader.rest))
                == L.DecodeEntries(checksums, lim, entries, lastPath, last, reader.rest)
      decreases |reader.rest|
    {
      var status :- reader.ReadByte();
      if status == 0 {
        return Ok(entries);
      }
      if |entries| >= lim.maxEntries {
        return Err(InvalidData);
      }
      var e :- ReadEntry(reader, checksums, lim, lastPath, last, status);
      entries := entries + [e];
      lastPath, last := e.path, L.Recorded(e);
    }
  }
}
