/** The protocol-31 file-list reader, on any bytes: it rebuilds each entry from the one before. */
module FileListReader {
  import opened Wire
  import opened Varint
  import opened FileEntry
  import W = FileListWriter

  /** The entries read so far and what the reader remembers of the last one. */
  datatype State = State(
    entries: seq<Entry>, path: seq<byte>, mode: Option<u32>, mtime: Option<i64>,
    uid: Option<u32>, gid: Option<u32>, userName: Option<seq<byte>>, groupName: Option<seq<byte>>,
    atime: Option<i64>)

  const INITIAL := State([], [], None, None, None, None, None, None, None)

  function ReadLength(long: bool, s: seq<byte>): (p: Parsed<u32>)
    ensures p.Ok? ==> |p.value.1| < |s|
  {
    if long then DecodeVarint(s)
    else
      var (n, s1) :- ReadU8(s);
      Ok((n, s1))
  }

  function DecodePath(lim: Limits, last: seq<byte>, flags: u32, s: seq<byte>): (p: Parsed<seq<byte>>)
    ensures p.Ok? ==> |p.value.0| <= lim.maxPathLen && |p.value.1| < |s|
  {
    var (inherited, s1) :- if W.Has(flags, W.SAME_NAME) then ReadU8(s) else Ok((0, s));
    if inherited > |last| then Err(InvalidData)
    else
      var (suffixLen, s2) :- ReadLength(W.Has(flags, W.LONG_NAME), s1);
      if inherited + suffixLen > lim.maxPathLen then Err(InvalidData)
      else
        var (suffix, s3) :- Take(s2, suffixLen);
        Ok((last[..inherited] + suffix, s3))
  }

  function DecodeTime(s: seq<byte>): (p: Parsed<i64>)
    ensures p.Ok? ==> |p.value.1| < |s|
  {
    var (t, s1) :- DecodeVarlong(s, 4);
    if t > I64_MAX then Err(InvalidData) else Ok((t, s1))
  }

  function Repeated<T>(last: Option<T>, s: seq<byte>): (p: Parsed<T>)
    ensures p.Ok? ==> p.value.1 == s && last == Some(p.value.0)
  {
    match last
    case Some(v) => Ok((v, s))
    case None => Err(InvalidData)
  }

  function DecodeBytes(s: seq<byte>): (p: Parsed<seq<byte>>)
    ensures p.Ok? ==> |p.value.1| < |s|
  {
    var (n, s1) :- ReadU8(s);
    Take(s1, n)
  }

  function DecodeName(s: seq<byte>): (p: Parsed<seq<byte>>)
    ensures p.Ok? ==> |p.value.1| < |s|
  {
    var (name, s1) :- DecodeBytes(s);
    if Utf8(name) then Ok((name, s1)) else Err(InvalidUtf8)
  }

  function DecodeMode(s: seq<byte>): (p: Parsed<u32>)
    ensures p.Ok? ==> |p.value.1| <= |s|
  {
    ReadU32Le(s)
  }

  datatype Times = Times(len: u64, mtime: i64, mode: u32, crtime: Option<i64>)

  function DecodeTimes(o: Options, st: State, flags: u32, s: seq<byte>): (p: Parsed<Times>)
    ensures p.Ok? ==> |p.value.1| <= |s|
  {
    var (len, s1) :- DecodeVarlong(s, 3);
    var (mtime, s2) :- if W.Has(flags, W.SAME_TIME) then Repeated(st.mtime, s1) else DecodeTime(s1);
    var (_, s3) :- if W.Has(flags, W.MOD_NSEC) then DecodeVarint(s2) else Ok((0, s2));
    var (mode, s4) :- if W.Has(flags, W.SAME_MODE) then Repeated(st.mode, s3) else DecodeMode(s3);
    if !o.crtimes then Ok((Times(len, mtime, mode, None), s4))
    else if W.Has(flags, W.CRTIME_EQ_MTIME) then Ok((Times(len, mtime, mode, Some(mtime)), s4))
    else
      var (crtime, s5) :- DecodeTime(s4);
      Ok((Times(len, mtime, mode, Some(crtime)), s5))
  }

  datatype Owner = Owner(id: Option<u32>, name: Option<seq<byte>>)

  /** An id and its name; when ids are not kept, anything sent is skipped. */
  function DecodeId(keep: bool, same: bool, nameFollows: bool,
                    last: Option<u32>, lastName: Option<seq<byte>>, s: seq<byte>)
    : (p: Parsed<Owner>)
    ensures p.Ok? ==> |p.value.1| <= |s|
  {
    if same then Ok((if keep then Owner(last, lastName) else Owner(None, None), s))
    else
      var (id, s1) :- DecodeVarint(s);
      if nameFollows then
        var (name, s2) :- if keep then DecodeName(s1) else DecodeBytes(s1);
        Ok((if keep then Owner(Some(id), Some(name)) else Owner(None, None), s2))
      else Ok((if keep then Owner(Some(id), None) else Owner(None, None), s1))
  }

  function DecodeAtime(o: Options, st: State, flags: u32, t: FileType, s: seq<byte>)
    : (p: Parsed<Option<i64>>)
    ensures p.Ok? ==> |p.value.1| <= |s|
  {
    if !o.atimes || t.Directory? then Ok((None, s))
    else
      var (atime, s1) :- if W.Has(flags, W.SAME_ATIME) then Repeated(st.atime, s) else DecodeTime(s);
      Ok((Some(atime), s1))
  }

  function DecodeChecksum(sent: bool, s: seq<byte>): (p: Parsed<Option<Checksum>>)
    ensures p.Ok? ==> |p.value.1| <= |s|
  {
    if !sent then Ok((None, s))
    else
      var (c, s1) :- Take(s, 16);
      Ok((Some(c), s1))
  }

  datatype Owners = Owners(atime: Option<i64>, user: Owner, grp: Owner, checksum: Option<Checksum>)

  function DecodeIds(o: Options, st: State, flags: u32, s: seq<byte>): (p: Parsed<(Owner, Owner)>)
    ensures p.Ok? ==> |p.value.1| <= |s|
  {
    var (user, s1) :- DecodeId(o.preserveOwner, W.Has(flags, W.SAME_UID), W.Has(flags, W.USER_NAME_FOLLOWS),
                               st.uid, st.userName, s);
    var (grp, s2) :- DecodeId(o.preserveGroup, W.Has(flags, W.SAME_GID), W.Has(flags, W.GROUP_NAME_FOLLOWS),
                              st.gid, st.groupName, s1);
    Ok(((user, grp), s2))
  }

  function DecodeOwners(o: Options, st: State, flags: u32, t: FileType, s: seq<byte>): (p: Parsed<Owners>)
    ensures p.Ok? ==> |p.value.1| <= |s|
  {
    var (atime, s1) :- DecodeAtime(o, st, flags, t, s);
    var (ids, s2) :- DecodeIds(o, st, flags, s1);
    var (checksum, s3) :- DecodeChecksum(o.includeChecksums && t.File?, s2);
    Ok((Owners(atime, ids.0, ids.1, checksum), s3))
  }

  function DecodeEmptyAcl(s: seq<byte>): (p: Parsed<()>)
    ensures p.Ok? ==> |p.value.1| <= |s|
  {
    var (index, s1) :- DecodeVarint(s);
    if index != 0 then Err(InvalidData)
    else
      var (flags, s2) :- ReadU8(s1);
      if flags != 0 then Err(InvalidData) else Ok(((), s2))
  }

  function DecodeAcls(t: FileType, s: seq<byte>): (p: Parsed<()>)
    ensures p.Ok? ==> |p.value.1| <= |s|
  {
    var (_, s1) :- DecodeEmptyAcl(s);
    if t.Directory? then DecodeEmptyAcl(s1) else Ok(((), s1))
  }

  function DecodeXattr(s: seq<byte>): (p: Parsed<Xattr>)
    ensures p.Ok? ==> |p.value.1| <= |s|
  {
    var (nameLen, s1) :- DecodeVarint(s);
    var (valueLen, s2) :- DecodeVarint(s1);
    if nameLen == 0 then Err(InvalidXattrName)
    else
      var (name, s3) :- Take(s2, nameLen);
      if name[nameLen - 1] != 0 then Err(InvalidXattrName)
      else if !Utf8(name[..nameLen - 1]) then Err(InvalidUtf8)
      else
        var (value, s4) :- Take(s3, valueLen);
        Ok((Xattr(name[..nameLen - 1], value), s4))
  }

  function DecodeXattrs(count: nat, s: seq<byte>): (p: Parsed<seq<Xattr>>)
    ensures p.Ok? ==> |p.value.1| <= |s|
    decreases count
  {
    if count == 0 then Ok(([], s))
    else
      var (first, s1) :- DecodeXattr(s);
      var (more, s2) :- DecodeXattrs(count - 1, s1);
      Ok(([first] + more, s2))
  }

  function DecodeXattrPayload(s: seq<byte>): (p: Parsed<seq<Xattr>>)
    ensures p.Ok? ==> |p.value.1| < |s|
  {
    var (index, s1) :- DecodeVarint(s);
    if index != 0 then Err(InvalidData)
    else
      var (count, s2) :- DecodeVarint(s1);
      DecodeXattrs(count, s2)
  }

  function DecodePayload(o: Options, t: FileType, s: seq<byte>): (p: Parsed<seq<Xattr>>)
    ensures p.Ok? ==> |p.value.1| <= |s|
  {
    var (_, s1) :- if o.acls && !t.Symlink? then DecodeAcls(t, s) else Ok(((), s));
    if o.xattrs || o.fakeSuper then DecodeXattrPayload(s1) else Ok(([], s1))
  }

  /** An entry sent in full. A hard-linked one opens a group named after its index. */
  function DecodeFresh(o: Options, st: State, flags: u32, path: seq<byte>, s: seq<byte>): (p: Parsed<Entry>)
    ensures p.Ok? ==> |p.value.1| <= |s|
    ensures p.Ok? ==> p.value.0.path == path && FileTypeFromMode(p.value.0.mode) == Ok(p.value.0.fileType)
  {
    var (times, s1) :- DecodeTimes(o, st, flags, s);
    var t :- FileTypeFromMode(times.mode);
    var (owners, s2) :- DecodeOwners(o, st, flags, t, s1);
    var (xattrs, s3) :- DecodePayload(o, t, s2);
    var group := if W.Has(flags, W.HLINKED) then Some(HardLinkGroup(0, |st.entries|)) else None;
    var meta := Metadata(owners.user.id, owners.grp.id, owners.user.name, owners.grp.name,
                         owners.atime, times.crtime, xattrs);
    Ok((Entry(path, t, times.len, times.mtime, times.mode, owners.checksum, group, meta), s3))
  }

  /** A later member of a hard-link group copies the entry it refers to, save path and xattrs. */
  function DecodeReference(o: Options, st: State, path: seq<byte>, s: seq<byte>): (p: Parsed<Entry>)
    ensures p.Ok? ==> |p.value.1| <= |s|
    ensures p.Ok? ==> p.value.0.path == path
  {
    var (first, s1) :- DecodeVarint(s);
    if first >= |st.entries| then Err(InvalidData)
    else
      var e := st.entries[first];
      var (xattrs, s2) :- DecodePayload(o, e.fileType, s1);
      var group := e.hardLink.GetOr(HardLinkGroup(0, first));
      Ok((e.(path := path, hardLink := Some(group), meta := e.meta.(xattrs := xattrs)), s2))
  }

  /** Remembers the entry just read; names are kept from the last entry that had one. */
  function Push(o: Options, st: State, e: Entry): State {
    State(
      entries := st.entries + [e],
      path := e.path,
      mode := Some(e.mode),
      mtime := Some(e.mtime),
      uid := if o.preserveOwner then e.meta.uid else st.uid,
      gid := if o.preserveGroup then e.meta.gid else st.gid,
      userName := if o.preserveOwner && e.meta.userName.Some? then e.meta.userName else st.userName,
      groupName := if o.preserveGroup && e.meta.groupName.Some? then e.meta.groupName else st.groupName,
      atime := if o.atimes && !e.fileType.Directory? then e.meta.atime else st.atime)
  }

  function DecodeEntry(o: Options, lim: Limits, st: State, flags: u32, s: seq<byte>): (p: Parsed<Entry>)
    ensures p.Ok? ==> |p.value.1| < |s|
  {
    var (bytes, s1) :- DecodePath(lim, st.path, flags, s);
    var path :- WirePathFromBytes(bytes);
    if W.Has(flags, W.HLINKED) && !W.Has(flags, W.HLINK_FIRST) then DecodeReference(o, st, path, s1)
    else DecodeFresh(o, st, flags, path, s1)
  }

  function DecodeEntries(o: Options, lim: Limits, st: State, s: seq<byte>): Parsed<seq<Entry>>
    decreases |s|
  {
    var (flags, s1) :- DecodeVarint(s);
    if flags == 0 then
      var (ioError, s2) :- DecodeVarint(s1);
      if ioError != 0 then Err(InvalidData) else Ok((st.entries, s2))
    else if |st.entries| >= lim.maxEntries then Err(InvalidData)
    else
      var (e, s2) :- DecodeEntry(o, lim, st, flags, s1);
      DecodeEntries(o, lim, Push(o, st, e), s2)
  }

  function DecodeIdList(s: seq<byte>): Parsed<()>
    decreases |s|
  {
    var (id, s1) :- DecodeVarint(s);
    var (_, s2) :- DecodeBytes(s1);
    if id == 0 then Ok(((), s2)) else DecodeIdList(s2)
  }

  function DecodeIdLists(o: Options, s: seq<byte>): Parsed<()> {
    var (_, s1) :- if !o.numericIds && (o.preserveOwner || o.acls) then DecodeIdList(s) else Ok(((), s));
    if !o.numericIds && (o.preserveGroup || o.acls) then DecodeIdList(s1) else Ok(((), s1))
  }

  function DecodeList(o: Options, lim: Limits, s: seq<byte>): Parsed<seq<Entry>> {
    var (entries, s1) :- DecodeEntries(o, lim, INITIAL, s);
    var (_, s2) :- DecodeIdLists(o, s1);
    Ok((entries, s2))
  }

}
