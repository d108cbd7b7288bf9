/** The protocol-31 codec as it runs: a writer object and a reading loop, each equal to its specification. */
module FileListCodec {
  import Seqs
  import opened Wire
  import opened Varint
  import opened FileEntry
  import W = FileListWriter
  import R = FileListReader

  class Rsync31FileListWriter {
    const options: Options
    var lastPath: seq<byte>
    var lastMode: Option<u32>
    var lastMtime: Option<i64>
    var lastUid: Option<u32>
    var lastGid: Option<u32>
    var lastAtime: Option<i64>
    var hardlinkGroups: map<HardLinkGroup, nat>
    var nextIndex: nat
    var finished: bool

    ghost function State(): W.State
      reads this
    {
      W.State(lastPath, lastMode, lastMtime, lastUid, lastGid, lastAtime, hardlinkGroups, nextIndex)
    }

    constructor (o: Options)
      ensures options == o && State() == W.INITIAL && !finished
    {
      options := o;
      lastPath := [];
      lastMode, lastMtime, lastUid, lastGid, lastAtime := None, None, None, None, None;
      hardlinkGroups, nextIndex, finished := map[], 0, false;
    }

    /** A batch appends exactly the entries' code words and leaves the state they leave. */
    method WriteBatch(w: Sink, es: seq<Entry>) returns (r: Result<()>)
      modifies this, w
      ensures old(finished) ==> r == Err(InvalidInput) && w.out == old(w.out) && State() == old(State())
      ensures finished == old(finished)
      ensures !old(finished) ==> Writes(r, old(w.out), w.out, W.EncodeEntries(options, old(State()), es))
      ensures r.Ok? ==> State() == W.RecordAll(options, old(State()), es)
      ensures r.Err? && !finished ==>
                exists k :: W.BreaksOff(options, old(State()), es, k, r.error, old(w.out), w.out, State())
    {
      hide W.EncodeEntry, W.Record, W.EncodeEntries, W.RecordAll, W.Failed;
      if finished {
        return Err(InvalidInput);
      }
      ghost var start, st0 := w.out, State();
      ghost var sent: seq<byte> := [];
      var i := 0;
      Empty(options, st0, es);
      while i < |es|
        invariant 0 <= i <= |es| && !finished
        invariant State() == W.RecordAll(options, st0, es[..i])
        invariant W.EncodeEntries(options, st0, es[..i]) == Ok(sent)
        invariant w.out == start + sent
      {
        ghost var one := W.EncodeEntry(options, State(), es[i]);
        Snoc(options, st0, es, i);
        var written := WriteEntry(w, es[i]);
        if written.Err? {
          assert W.BreaksOff(options, st0, es, i, written.error, start, w.out, State());
          return written;
        }
        Regroup(start, sent, one.value, [], [], []);
        sent := sent + one.value;
        i := i + 1;
      }
      assert es[..i] == es;
      r := Ok(());
    }

    static lemma Empty(o: Options, st: W.State, es: seq<Entry>)
      ensures W.EncodeEntries(o, st, es[..0]) == Ok([]) && W.RecordAll(o, st, es[..0]) == st
    {
    }

    // The first error of a batch is the batch's error.
    static lemma Snoc(o: Options, st: W.State, es: seq<Entry>, i: nat)
      requires i < |es| && W.EncodeEntries(o, st, es[..i]).Ok?
      ensures var mid := W.RecordAll(o, st, es[..i]);
              var one := W.EncodeEntry(o, mid, es[i]);
              && (one.Ok? ==>
                  W.EncodeEntries(o, st, es[..i + 1]) == Ok(W.EncodeEntries(o, st, es[..i]).value + one.value))
              && W.RecordAll(o, st, es[..i + 1]) == W.Record(o, mid, es[i])
              && (one.Err? ==> W.EncodeEntries(o, st, es) == Err(one.error))
    {
      hide W.EncodeEntry, W.Record;
      var mid := W.RecordAll(o, st, es[..i]);
      var one := W.EncodeEntry(o, mid, es[i]);
      assert es[..i + 1] == es[..i] + [es[i]] && es == es[..i] + es[i..];
      W.SplitIndependence(o, st, es[..i], [es[i]]);
      W.SplitIndependence(o, st, es[..i], es[i..]);
      Empty(o, W.Record(o, mid, es[i]), es);
      assert [es[i]][1..] == es[..0];
      assert one.Ok? ==> one.value + [] == one.value;
    }

    method WriteEntry(w: Sink, e: Entry) returns (r: Result<()>)
      modifies this, w
      ensures finished == old(finished)
      ensures Writes(r, old(w.out), w.out, W.EncodeEntry(options, old(State()), e))
      ensures r.Ok? ==> State() == W.Record(options, old(State()), e)
      ensures r.Err? ==> State() == W.Failed(old(State()), e)
    {
      hide W.EncodeEntry, ToWirePath, CommonPrefixLen, W.EntryFlags;
      ghost var st := State();
      var path := ToWirePath(e.path);
      var inherited := CommonPrefixLen(lastPath, path);
      var reference := None;
      var first := false;
      if e.fileType.File? && e.hardLink.Some? {
        var group := e.hardLink.value;
        if group in hardlinkGroups {
          reference := Some(hardlinkGroups[group]);
        } else {
          hardlinkGroups := hardlinkGroups[group := nextIndex];
          first := true;
        }
      }
      var flags := MakeFlags(e, path, inherited, first, st);
      var _ :- WriteParts(w, options, e, path, inherited, flags, reference, st);
      RecordEntryState(path, e);
      r := Ok(());
    }

    method MakeFlags(e: Entry, path: seq<byte>, inherited: nat, first: bool, ghost st: W.State) returns (flags: W.Flags)
      requires path == ToWirePath(e.path) && inherited == CommonPrefixLen(lastPath, path)
      requires first == (W.InGroup(e) && W.Reference(st, e).None?)
      requires st.path == lastPath && st.mode == lastMode && st.mtime == lastMtime
      requires st.uid == lastUid && st.gid == lastGid && st.atime == lastAtime
      ensures flags == W.EntryFlags(options, st, e)
    {
      hide ToWirePath, CommonPrefixLen, W.Reference;
      var topDir := e.fileType.Directory? && e.path == TOP_DIR_PATH;
      var hlinked := e.fileType.File? && e.hardLink.Some?;
      var sameUid, sameGid, userNameFollows, groupNameFollows := false, false, false, false;
      if !options.preserveOwner || lastUid == Some(W.Uid(e)) {
        sameUid := true;
      } else if !options.numericIds && e.meta.userName.Some? {
        userNameFollows := true;
      }
      if !options.preserveGroup || lastGid == Some(W.Gid(e)) {
        sameGid := true;
      } else if !options.numericIds && e.meta.groupName.Some? {
        groupNameFollows := true;
      }
      var sameAtime := options.atimes && !e.fileType.Directory? && lastAtime == Some(W.Atime(e));
      flags := W.Flags(
        topDir, lastMode == Some(e.mode), false, sameUid, sameGid, inherited > 0, |path| - inherited > 255,
        lastMtime == Some(e.mtime), hlinked, userNameFollows, groupNameFollows, first, true, sameAtime,
        options.crtimes && W.Crtime(e) == e.mtime);
      if flags == W.NO_FLAGS {
        flags := flags.(extended := true);
      }
    }

    method RecordEntryState(path: seq<byte>, e: Entry)
      modifies this`lastPath, this`lastMode, this`lastMtime, this`lastUid, this`lastGid, this`lastAtime, this`nextIndex
      ensures lastPath == path && lastMode == Some(e.mode) && lastMtime == Some(e.mtime)
      ensures lastUid == if options.preserveOwner then Some(W.Uid(e)) else old(lastUid)
      ensures lastGid == if options.preserveGroup then Some(W.Gid(e)) else old(lastGid)
      ensures lastAtime == if options.atimes && !e.fileType.Directory? then Some(W.Atime(e)) else old(lastAtime)
      ensures nextIndex == old(nextIndex) + 1
    {
      lastPath, lastMode, lastMtime := path, Some(e.mode), Some(e.mtime);
      if options.preserveOwner {
        lastUid := Some(W.Uid(e));
      }
      if options.preserveGroup {
        lastGid := Some(W.Gid(e));
      }
      if options.atimes && !e.fileType.Directory? {
        lastAtime := Some(W.Atime(e));
      }
      nextIndex := nextIndex + 1;
    }

    /** Ends the list, once. */
    method Finish(w: Sink) returns (r: Result<()>)
      modifies this`finished, w
      ensures r.Ok? && finished
      ensures w.out == old(w.out) + if old(finished) then [] else W.EncodeFinish(options)
    {
      if !finished {
        w.WriteAll([0]);
        w.WriteAll([0]);
        if !options.numericIds {
          if options.preserveOwner || options.acls {
            w.WriteAll(W.ROOT_ID);
          }
          if options.preserveGroup || options.acls {
            w.WriteAll(W.ROOT_ID);
          }
        }
        finished := true;
      }
      r := Ok(());
    }
  }

  /** Flags and path, then a reference or the changed fields, then ACLs and xattrs. */
  method WriteParts(w: Sink, o: Options, e: Entry, path: seq<byte>, inherited: nat, flags: W.Flags,
                    reference: Option<nat>, ghost st: W.State)
    returns (r: Result<()>)
    requires path == ToWirePath(e.path) && inherited == CommonPrefixLen(st.path, path)
    requires flags == W.EntryFlags(o, st, e) && reference == W.Reference(st, e)
    modifies w
    ensures Writes(r, old(w.out), w.out, W.EncodeEntry(o, st, e))
  {
    hide W.EncodePath, W.EncodeFields, W.EncodeCount, W.EncodePayload, ToWirePath, CommonPrefixLen, W.EntryFlags,
      W.Reference;
    ghost var before := w.out;
    LongSuffix(o, st, e);
    var _ :- WritePath(w, flags, inherited, path[inherited..]);
    match reference {
      case Some(index) =>
        var _ :- WriteCount(w, index, InvalidInput);
      case None =>
        var _ :- WriteFields(w, o, flags, e);
    }
    var _ :- WritePayload(w, o, e);
    Seqs.Regroup4(before, W.EncodePath(flags, inherited, path[inherited..]).value, W.EncodeBody(o, st, e).value,
                  W.EncodePayload(o, e).value);
    r := Ok(());
  }

  lemma LongSuffix(o: Options, st: W.State, e: Entry)
    ensures var path := ToWirePath(e.path);
            W.EntryFlags(o, st, e).longName <==> |path| - CommonPrefixLen(st.path, path) > 255
  {
    hide ToWirePath, CommonPrefixLen, W.Reference;
  }

  method WriteCount(w: Sink, n: nat, tooLarge: Error) returns (r: Result<()>)
    modifies w
    ensures Writes(r, old(w.out), w.out, W.EncodeCount(n, tooLarge))
  {
    if n >= 0x1_0000_0000 {
      return Err(tooLarge);
    }
    r := WriteVarint(w, n);
  }

  method WriteTime(w: Sink, t: i64) returns (r: Result<()>)
    modifies w
    ensures Writes(r, old(w.out), w.out, W.EncodeTime(t))
  {
    if t < 0 {
      return Err(InvalidInput);
    }
    r := WriteVarlong(w, t, 4);
  }

  method WritePath(w: Sink, f: W.Flags, inherited: nat, suffix: seq<byte>) returns (r: Result<()>)
    requires inherited <= 255 && (f.longName <==> |suffix| > 255)
    modifies w
    ensures Writes(r, old(w.out), w.out, W.EncodePath(f, inherited, suffix))
  {
    hide EncodeVarint, W.Word, W.EncodeCount;
    var _ :- WriteVarint(w, W.Word(f));
    if f.sameName {
      w.WriteAll([inherited]);
    }
    if f.longName {
      var _ :- WriteCount(w, |suffix|, PathTooLong);
    } else {
      w.WriteAll([|suffix|]);
    }
    w.WriteAll(suffix);
    r := Ok(());
  }

  method WriteId(w: Sink, id: u32, name: Option<seq<byte>>) returns (r: Result<()>)
    modifies w
    ensures Writes(r, old(w.out), w.out, W.EncodeId(id, name))
  {
    hide EncodeVarint;
    var _ :- WriteVarint(w, id);
    if name.Some? {
      if |name.value| > 255 {
        return Err(InvalidInput);
      }
      w.WriteAll([|name.value|]);
      w.WriteAll(name.value);
    }
    r := Ok(());
  }

  method WriteFields(w: Sink, o: Options, f: W.Flags, e: Entry) returns (r: Result<()>)
    modifies w
    ensures Writes(r, old(w.out), w.out, W.EncodeFields(o, f, e))
  {
    hide W.EncodeTimes, W.EncodeOwners;
    var _ :- WriteTimes(w, o, f, e);
    var _ :- WriteOwners(w, o, f, e);
    r := Ok(());
  }

  method WriteTimes(w: Sink, o: Options, f: W.Flags, e: Entry) returns (r: Result<()>)
    modifies w
    ensures Writes(r, old(w.out), w.out, W.EncodeTimes(o, f, e))
  {
    hide EncodeVarint, EncodeVarlong, W.EncodeTime;
    ghost var start := w.out;
    var _ :- WriteVarlong(w, e.len, 3);
    ghost var len := EncodeVarlong(e.len, 3).value;
    if !f.sameTime {
      var _ :- WriteTime(w, e.mtime);
    }
    ghost var mtime := W.When(!f.sameTime, W.EncodeTime(e.mtime)).value;
    assert w.out == start + len + mtime;
    if f.modNsec {
      var _ :- WriteVarint(w, 0);
    }
    ghost var nsec := W.When(f.modNsec, EncodeVarint(0)).value;
    assert w.out == start + len + mtime + nsec;
    if !f.sameMode {
      w.WriteAll(Le(e.mode, 4));
    }
    ghost var mode := if f.sameMode then [] else Le(e.mode, 4);
    assert w.out == start + len + mtime + nsec + mode;
    if o.crtimes && !f.crtimeEqMtime {
      var _ :- WriteTime(w, W.Crtime(e));
    }
    ghost var crtime := W.When(o.crtimes && !f.crtimeEqMtime, W.EncodeTime(W.Crtime(e))).value;
    assert w.out == start + len + mtime + nsec + mode + crtime;
    Regroup(start, len, mtime, nsec, mode, crtime);
    r := Ok(());
  }

  lemma Regroup(s: seq<byte>, a: seq<byte>, b: seq<byte>, c: seq<byte>, d: seq<byte>, e: seq<byte>)
    ensures s + a + b == s + (a + b)
    ensures s + a + b + c + d == s + (a + (b + (c + d)))
    ensures s + a + b + c + d + e == s + (a + (b + (c + (d + e))))
  {
  }

  method WriteIds(w: Sink, o: Options, f: W.Flags, e: Entry) returns (r: Result<()>)
    modifies w
    ensures Writes(r, old(w.out), w.out, W.EncodeIds(o, f, e))
  {
    hide W.EncodeId, W.SentName;
    ghost var start := w.out;
    var userName := W.SentName(f.userNameFollows, e.meta.userName);
    if o.preserveOwner && !f.sameUid {
      var _ :- WriteId(w, W.Uid(e), userName);
    }
    ghost var user := W.When(o.preserveOwner && !f.sameUid, W.EncodeId(W.Uid(e), userName)).value;
    assert w.out == start + user;
    var groupName := W.SentName(f.groupNameFollows, e.meta.groupName);
    if o.preserveGroup && !f.sameGid {
      var _ :- WriteId(w, W.Gid(e), groupName);
    }
    ghost var grp := W.When(o.preserveGroup && !f.sameGid, W.EncodeId(W.Gid(e), groupName)).value;
    assert w.out == start + user + grp;
    Regroup(start, user, grp, [], [], []);
    r := Ok(());
  }

  method WriteOwners(w: Sink, o: Options, f: W.Flags, e: Entry) returns (r: Result<()>)
    modifies w
    ensures Writes(r, old(w.out), w.out, W.EncodeOwners(o, f, e))
  {
    hide W.EncodeIds, W.EncodeTime;
    ghost var start := w.out;
    var sendAtime := o.atimes && !e.fileType.Directory? && !f.sameAtime;
    if sendAtime {
      var _ :- WriteTime(w, W.Atime(e));
    }
    ghost var atime := W.When(sendAtime, W.EncodeTime(W.Atime(e))).value;
    assert w.out == start + atime;
    var _ :- WriteIds(w, o, f, e);
    ghost var ids := W.EncodeIds(o, f, e).value;
    ghost var checksum: seq<byte> := [];
    if o.includeChecksums && e.fileType.File? {
      if e.checksum.None? {
        return Err(MissingChecksum);
      }
      w.WriteAll(e.checksum.value);
      checksum := e.checksum.value;
    }
    assert w.out == start + atime + ids + checksum;
    Regroup(start, atime, ids, checksum, [], []);
    assert ids + (checksum + []) == ids + checksum;
    r := Ok(());
  }

  method WritePayload(w: Sink, o: Options, e: Entry) returns (r: Result<()>)
    modifies w
    ensures Writes(r, old(w.out), w.out, W.EncodePayload(o, e))
  {
    hide W.EncodeXattrPayload;
    if o.acls && !e.fileType.Symlink? {
      w.WriteAll(W.EMPTY_ACL);
      if e.fileType.Directory? {
        w.WriteAll(W.EMPTY_ACL);
      }
    }
    if o.xattrs {
      var _ :- WriteXattrs(w, e.meta.xattrs);
    }
    r := Ok(());
  }

  method WriteXattrs(w: Sink, xs: seq<Xattr>) returns (r: Result<()>)
    modifies w
    ensures Writes(r, old(w.out), w.out, W.EncodeXattrPayload(xs))
  {
    hide EncodeVarint, W.EncodeXattr, W.EncodeXattrs;
    ghost var start := w.out;
    var _ :- WriteVarint(w, 0);
    var _ :- WriteVarint(w, |xs| % 0x1_0000_0000);
    ghost var index, count := EncodeVarint(0).value, EncodeVarint(|xs| % 0x1_0000_0000).value;
    ghost var before := w.out;
    assert before == start + index + count;
    ghost var sent: seq<byte> := [];
    var i := 0;
    NoXattrs(xs);
    while i < |xs|
      invariant 0 <= i <= |xs|
      invariant w.out == before + sent
      invariant W.EncodeXattrs(xs[..i]) == Ok(sent)
    {
      ghost var one := W.EncodeXattr(xs[i]);
      NextXattr(xs, i);
      var _ :- WriteXattr(w, xs[i]);
      Regroup(before, sent, one.value, [], [], []);
      sent := sent + one.value;
      i := i + 1;
    }
    assert xs[..i] == xs;
    Regroup(start, index, count, sent, [], []);
    assert count + (sent + []) == count + sent;
    r := Ok(());
  }

  lemma NoXattrs(xs: seq<Xattr>)
    ensures W.EncodeXattrs(xs[..0]) == Ok([])
  {
  }

  lemma {:induction false} XattrsAppend(a: seq<Xattr>, b: seq<Xattr>)
    requires W.EncodeXattrs(a).Ok?
    ensures W.EncodeXattrs(a + b) == match W.EncodeXattrs(b)
                                     case Ok(y) => Ok(W.EncodeXattrs(a).value + y)
                                     case Err(x) => Err(x)
  {
    hide W.EncodeXattr;
    if a == [] {
      assert a + b == b;
      var y := W.EncodeXattrs(b);
      assert y.Ok? ==> [] + y.value == y.value;
    } else {
      assert (a + b)[0] == a[0] && (a + b)[1..] == a[1..] + b;
      XattrsAppend(a[1..], b);
      var first, x, y := W.EncodeXattr(a[0]), W.EncodeXattrs(a[1..]), W.EncodeXattrs(b);
      assert y.Ok? ==> first.value + (x.value + y.value) == first.value + x.value + y.value;
    }
  }

  lemma NextXattr(xs: seq<Xattr>, i: nat)
    requires i < |xs| && W.EncodeXattrs(xs[..i]).Ok?
    ensures W.EncodeXattr(xs[i]).Ok? ==>
              W.EncodeXattrs(xs[..i + 1]) == Ok(W.EncodeXattrs(xs[..i]).value + W.EncodeXattr(xs[i]).value)
    ensures W.EncodeXattr(xs[i]).Err? ==> W.EncodeXattrs(xs) == Err(W.EncodeXattr(xs[i]).error)
  {
    hide W.EncodeXattrs, W.EncodeXattr;
    assert xs[..i + 1] == xs[..i] + [xs[i]] && xs == xs[..i] + xs[i..];
    XattrsAppend(xs[..i], [xs[i]]);
    XattrsAppend(xs[..i], xs[i..]);
    OneXattr(xs[i..]);
    OneXattr([xs[i]]);
  }

  lemma OneXattr(xs: seq<Xattr>)
    requires xs != []
    ensures W.EncodeXattr(xs[0]).Err? ==> W.EncodeXattrs(xs) == Err(W.EncodeXattr(xs[0]).error)
    ensures |xs| == 1 ==> W.EncodeXattrs(xs) == W.EncodeXattr(xs[0])
  {
    hide W.EncodeXattr;
    var one := W.EncodeXattr(xs[0]);
    assert one.Ok? ==> one.value + [] == one.value;
  }

  method WriteXattr(w: Sink, x: Xattr) returns (r: Result<()>)
    modifies w
    ensures Writes(r, old(w.out), w.out, W.EncodeXattr(x))
  {
    hide EncodeVarint;
    if x.name == [] || 0 in x.name {
      return Err(InvalidXattrName);
    }
    if |x.value| > W.MAX_INLINE_XATTR_VALUE {
      return Err(XattrValueTooLarge);
    }
    ghost var start, nameLen, valueLen := w.out, EncodeVarint((|x.name| + 1) % 0x1_0000_0000), EncodeVarint(|x.value|);
    var _ :- WriteVarint(w, (|x.name| + 1) % 0x1_0000_0000);
    var _ :- WriteVarint(w, |x.value|);
    w.WriteAll(x.name);
    w.WriteAll([0]);
    w.WriteAll(x.value);
    Regroup(start, nameLen.value, valueLen.value, x.name, [0], x.value);
    r := Ok(());
  }

  method ReadLength(reader: Source, long: bool) returns (r: Result<u32>)
    modifies reader
    ensures Reads(r, reader.rest, R.ReadLength(long, old(reader.rest)))
  {
    if long {
      r := ReadVarint(reader);
    } else {
      var n :- reader.ReadByte();
      r := Ok(n);
    }
  }

  method ReadPath(reader: Source, lim: Limits, last: seq<byte>, flags: u32) returns (r: Result<seq<byte>>)
    modifies reader
    ensures Reads(r, reader.rest, R.DecodePath(lim, last, flags, old(reader.rest)))
  {
    hide W.Has, R.ReadLength;
    var inherited := 0;
    if W.Has(flags, W.SAME_NAME) {
      inherited :- reader.ReadByte();
    }
    if inherited > |last| {
      return Err(InvalidData);
    }
    var suffixLen :- ReadLength(reader, W.Has(flags, W.LONG_NAME));
    if inherited + suffixLen > lim.maxPathLen {
      return Err(InvalidData);
    }
    var suffix :- reader.ReadExact(suffixLen);
    r := Ok(last[..inherited] + suffix);
  }

  method ReadTime(reader: Source) returns (r: Result<i64>)
    modifies reader
    ensures Reads(r, reader.rest, R.DecodeTime(old(reader.rest)))
  {
    hide DecodeVarlong;
    var t :- ReadVarlong(reader, 4);
    r := if t > I64_MAX then Err(InvalidData) else Ok(t);
  }

  method ReadBytes(reader: Source) returns (r: Result<seq<byte>>)
    modifies reader
    ensures Reads(r, reader.rest, R.DecodeBytes(old(reader.rest)))
  {
    var n :- reader.ReadByte();
    r := reader.ReadExact(n);
  }

  method ReadName(reader: Source) returns (r: Result<seq<byte>>)
    modifies reader
    ensures Reads(r, reader.rest, R.DecodeName(old(reader.rest)))
  {
    hide R.DecodeBytes;
    var name :- ReadBytes(reader);
    r := if Utf8(name) then Ok(name) else Err(InvalidUtf8);
  }

  method ReadTimes(reader: Source, o: Options, lastMtime: Option<i64>, lastMode: Option<u32>, flags: u32,
                   ghost st: R.State)
    returns (r: Result<R.Times>)
    requires st.mtime == lastMtime && st.mode == lastMode
    modifies reader
    ensures Reads(r, reader.rest, R.DecodeTimes(o, st, flags, old(reader.rest)))
  {
    hide W.Has, DecodeVarint, DecodeVarlong, R.DecodeTime, ReadU32Le;
    var len :- ReadVarlong(reader, 3);
    var mtime: i64;
    if W.Has(flags, W.SAME_TIME) {
      if lastMtime.None? {
        return Err(InvalidData);
      }
      mtime := lastMtime.value;
    } else {
      mtime :- ReadTime(reader);
    }
    if W.Has(flags, W.MOD_NSEC) {
      var _ :- ReadVarint(reader);
    }
    var mode: u32;
    if W.Has(flags, W.SAME_MODE) {
      if lastMode.None? {
        return Err(InvalidData);
      }
      mode := lastMode.value;
    } else {
      mode :- reader.ReadU32();
    }
    if !o.crtimes {
      return Ok(R.Times(len, mtime, mode, None));
    }
    if W.Has(flags, W.CRTIME_EQ_MTIME) {
      return Ok(R.Times(len, mtime, mode, Some(mtime)));
    }
    var crtime :- ReadTime(reader);
    r := Ok(R.Times(len, mtime, mode, Some(crtime)));
  }

  method ReadId(reader: Source, keep: bool, same: bool, nameFollows: bool, last: Option<u32>,
                lastName: Option<seq<byte>>)
    returns (r: Result<R.Owner>)
    modifies reader
    ensures Reads(r, reader.rest, R.DecodeId(keep, same, nameFollows, last, lastName, old(reader.rest)))
  {
    hide DecodeVarint, R.DecodeName, R.DecodeBytes;
    if same {
      return Ok(if keep then R.Owner(last, lastName) else R.Owner(None, None));
    }
    var id :- ReadVarint(reader);
    var name := None;
    if nameFollows {
      if keep {
        var n :- ReadName(reader);
        name := Some(n);
      } else {
        var _ :- ReadBytes(reader);
      }
    }
    r := Ok(if keep then R.Owner(Some(id), name) else R.Owner(None, None));
  }

  method ReadAtime(reader: Source, o: Options, st: R.State, flags: u32, t: FileType) returns (r: Result<Option<i64>>)
    modifies reader
    ensures Reads(r, reader.rest, R.DecodeAtime(o, st, flags, t, old(reader.rest)))
  {
    hide W.Has, R.DecodeTime;
    if !o.atimes || t.Directory? {
      return Ok(None);
    }
    if W.Has(flags, W.SAME_ATIME) {
      return if st.atime.None? then Err(InvalidData) else Ok(st.atime);
    }
    var a :- ReadTime(reader);
    r := Ok(Some(a));
  }

  method ReadChecksum(reader: Source, sent: bool) returns (r: Result<Option<Checksum>>)
    modifies reader
    ensures Reads(r, reader.rest, R.DecodeChecksum(sent, old(reader.rest)))
  {
    if !sent {
      return Ok(None);
    }
    var c :- reader.ReadExact(16);
    r := Ok(Some(c));
  }

  method ReadIds(reader: Source, o: Options, st: R.State, flags: u32) returns (r: Result<(R.Owner, R.Owner)>)
    modifies reader
    ensures Reads(r, reader.rest, R.DecodeIds(o, st, flags, old(reader.rest)))
  {
    hide W.Has, R.DecodeId;
    var user :- ReadId(reader, o.preserveOwner, W.Has(flags, W.SAME_UID), W.Has(flags, W.USER_NAME_FOLLOWS),
                       st.uid, st.userName);
    var grp :- ReadId(reader, o.preserveGroup, W.Has(flags, W.SAME_GID), W.Has(flags, W.GROUP_NAME_FOLLOWS),
                      st.gid, st.groupName);
    r := Ok((user, grp));
  }

  method ReadOwners(reader: Source, o: Options, st: R.State, flags: u32, t: FileType) returns (r: Result<R.Owners>)
    modifies reader
    ensures Reads(r, reader.rest, R.DecodeOwners(o, st, flags, t, old(reader.rest)))
  {
    hide R.DecodeAtime, R.DecodeIds, R.DecodeChecksum;
    var atime :- ReadAtime(reader, o, st, flags, t);
    var ids :- ReadIds(reader, o, st, flags);
    var checksum :- ReadChecksum(reader, o.includeChecksums && t.File?);
    r := Ok(R.Owners(atime, ids.0, ids.1, checksum));
  }

  method ReadEmptyAcl(reader: Source) returns (r: Result<()>)
    modifies reader
    ensures Reads(r, reader.rest, R.DecodeEmptyAcl(old(reader.rest)))
  {
    hide DecodeVarint;
    var index :- ReadVarint(reader);
    if index != 0 {
      return Err(InvalidData);
    }
    var flags :- reader.ReadByte();
    r := if flags != 0 then Err(InvalidData) else Ok(());
  }

  method ReadXattr(reader: Source) returns (r: Result<Xattr>)
    modifies reader
    ensures Reads(r, reader.rest, R.DecodeXattr(old(reader.rest)))
  {
    hide DecodeVarint;
    var nameLen :- ReadVarint(reader);
    var valueLen :- ReadVarint(reader);
    if nameLen == 0 {
      return Err(InvalidXattrName);
    }
    var name :- reader.ReadExact(nameLen);
    if name[nameLen - 1] != 0 {
      return Err(InvalidXattrName);
    }
    if !Utf8(name[..nameLen - 1]) {
      return Err(InvalidUtf8);
    }
    var value :- reader.ReadExact(valueLen);
    r := Ok(Xattr(name[..nameLen - 1], value));
  }

  method ReadXattrs(reader: Source) returns (r: Result<seq<Xattr>>)
    modifies reader
    ensures Reads(r, reader.rest, R.DecodeXattrPayload(old(reader.rest)))
  {
    hide DecodeVarint, R.DecodeXattr;
    var index :- ReadVarint(reader);
    if index != 0 {
      return Err(InvalidData);
    }
    var count :- ReadVarint(reader);
    ghost var s := reader.rest;
    var xs: seq<Xattr> := [];
    var i := 0;
    assert R.DecodeXattrs(count, s).Ok? ==> xs + R.DecodeXattrs(count, s).value.0 == R.DecodeXattrs(count, s).value.0;
    while i < count
      invariant 0 <= i <= count
      invariant R.DecodeXattrs(count, s) == match R.DecodeXattrs(count - i, reader.rest)
                                            case Ok((more, t)) => Ok((xs + more, t))
                                            case Err(x) => Err(x)
    {
      ghost var before := reader.rest;
      var x :- ReadXattr(reader);
      ghost var rest := R.DecodeXattrs(count - i - 1, reader.rest);
      assert rest.Ok? ==> xs + ([x] + rest.value.0) == xs + [x] + rest.value.0;
      xs := xs + [x];
      i := i + 1;
    }
    assert xs + [] == xs;
    r := Ok(xs);
  }

  method ReadPayload(reader: Source, o: Options, t: FileType) returns (r: Result<seq<Xattr>>)
    modifies reader
    ensures Reads(r, reader.rest, R.DecodePayload(o, t, old(reader.rest)))
  {
    hide R.DecodeEmptyAcl, R.DecodeXattrPayload;
    if o.acls && !t.Symlink? {
      var _ :- ReadEmptyAcl(reader);
      if t.Directory? {
        var _ :- ReadEmptyAcl(reader);
      }
    }
    if o.xattrs || o.fakeSuper {
      r := ReadXattrs(reader);
    } else {
      r := Ok([]);
    }
  }

  method ReadFresh(reader: Source, o: Options, st: R.State, flags: u32, path: seq<byte>) returns (r: Result<Entry>)
    modifies reader
    ensures Reads(r, reader.rest, R.DecodeFresh(o, st, flags, path, old(reader.rest)))
  {
    hide R.DecodeTimes, R.DecodeOwners, R.DecodePayload, FileTypeFromMode, W.Has;
    var times :- ReadTimes(reader, o, st.mtime, st.mode, flags, st);
    var t :- FileTypeFromMode(times.mode);
    var owners :- ReadOwners(reader, o, st, flags, t);
    var xattrs :- ReadPayload(reader, o, t);
    var group := if W.Has(flags, W.HLINKED) then Some(HardLinkGroup(0, |st.entries|)) else None;
    var meta :=
      Metadata(owners.user.id, owners.grp.id, owners.user.name, owners.grp.name, owners.atime, times.crtime, xattrs);
    r := Ok(Entry(path, t, times.len, times.mtime, times.mode, owners.checksum, group, meta));
  }

  method ReadEntry(reader: Source, o: Options, lim: Limits, st: R.State, flags: u32) returns (r: Result<Entry>)
    modifies reader
    ensures Reads(r, reader.rest, R.DecodeEntry(o, lim, st, flags, old(reader.rest)))
  {
    hide R.DecodePath, R.DecodeFresh, R.DecodePayload, W.Has, DecodeVarint, WirePathFromBytes;
    var bytes :- ReadPath(reader, lim, st.path, flags);
    var path :- WirePathFromBytes(bytes);
    if W.Has(flags, W.HLINKED) && !W.Has(flags, W.HLINK_FIRST) {
      var index :- ReadVarint(reader);
      if index >= |st.entries| {
        return Err(InvalidData);
      }
      var first := st.entries[index];
      var xattrs :- ReadPayload(reader, o, first.fileType);
      var group := first.hardLink.GetOr(HardLinkGroup(0, index));
      r := Ok(first.(path := path, hardLink := Some(group), meta := first.meta.(xattrs := xattrs)));
    } else {
      r := ReadFresh(reader, o, st, flags, path);
    }
  }

  method ReadIdList(reader: Source) returns (r: Result<()>)
    modifies reader
    ensures Reads(r, reader.rest, R.DecodeIdList(old(reader.rest)))
  {
    hide DecodeVarint, R.DecodeBytes;
    while true
      invariant R.DecodeIdList(reader.rest) == R.DecodeIdList(old(reader.rest))
      decreases |reader.rest|
    {
      var id :- ReadVarint(reader);
      var _ :- ReadBytes(reader);
      if id == 0 {
        return Ok(());
      }
    }
  }

  /** The reading loop: each turn decodes one entry against what the last ones left behind. */
  method ReadFileList(reader: Source, lim: Limits, o: Options) returns (r: Result<seq<Entry>>)
    modifies reader
    ensures Reads(r, reader.rest, R.DecodeList(o, lim, old(reader.rest)))
  {
    hide DecodeVarint, R.DecodeEntry, R.DecodeIdList;
    var entries: seq<Entry> := [];
    var path: seq<byte> := [];
    var mode: Option<u32>, mtime: Option<i64> := None, None;
    var uid: Option<u32>, gid: Option<u32> := None, None;
    var userName: Option<seq<byte>>, groupName: Option<seq<byte>> := None, None;
    var atime: Option<i64> := None;
    while true
      invariant R.DecodeEntries(o, lim, R.State(entries, path, mode, mtime, uid, gid, userName, groupName, atime),
                                reader.rest)
             == R.DecodeEntries(o, lim, R.INITIAL, old(reader.rest))
      decreases |reader.rest|
    {
      var st := R.State(entries, path, mode, mtime, uid, gid, userName, groupName, atime);
      var flags :- ReadVarint(reader);
      if flags == 0 {
        var ioError :- ReadVarint(reader);
        if ioError != 0 {
          return Err(InvalidData);
        }
        break;
      }
      if |entries| >= lim.maxEntries {
        return Err(InvalidData);
      }
      var e :- ReadEntry(reader, o, lim, st, flags);
      entries := entries + [e];
      path, mtime, mode := e.path, Some(e.mtime), Some(e.mode);
      if o.preserveOwner {
        uid := e.meta.uid;
        if e.meta.userName.Some? {
          userName := e.meta.userName;
        }
      }
      if o.preserveGroup {
        gid := e.meta.gid;
        if e.meta.groupName.Some? {
          groupName := e.meta.groupName;
        }
      }
      if o.atimes && !e.fileType.Directory? {
        atime := e.meta.atime;
      }
      assert R.Push(o, st, e) == R.State(entries, path, mode, mtime, uid, gid, userName, groupName, atime);
    }
    ghost var afterEntries := reader.rest;
    assert R.DecodeEntries(o, lim, R.INITIAL, old(reader.rest)) == Ok((entries, afterEntries));
    if !o.numericIds {
      if o.preserveOwner || o.acls {
        var _ :- ReadIdList(reader);
      }
      if o.preserveGroup || o.acls {
        var _ :- ReadIdList(reader);
      }
    }
    r := Ok(entries);
  }
}
