/** Each part of an entry reads back: the writer's pieces against the reader's, one at a time. */
module FileListSteps {
  import opened Wire
  import opened Varint
  import opened FileEntry
  import W = FileListWriter
  import R = FileListReader

  // Regrouping a piece list so that its first piece comes off.
  lemma Append3(a: seq<byte>, b: seq<byte>, rest: seq<byte>)
    ensures (a + b) + rest == a + (b + rest)
  {
  }

  lemma Append4(a: seq<byte>, b: seq<byte>, c: seq<byte>, rest: seq<byte>)
    ensures (a + (b + c)) + rest == a + (b + (c + rest))
  {
    Append3(a, b + c, rest);
    Append3(b, c, rest);
  }

  lemma Append5(a: seq<byte>, b: seq<byte>, c: seq<byte>, d: seq<byte>, rest: seq<byte>)
    ensures (a + (b + (c + d))) + rest == a + (b + (c + (d + rest)))
  {
    Append3(a, b + (c + d), rest);
    Append4(b, c, d, rest);
  }

  lemma Append6(a: seq<byte>, b: seq<byte>, c: seq<byte>, d: seq<byte>, e: seq<byte>, rest: seq<byte>)
    ensures (a + (b + (c + (d + e)))) + rest == a + (b + (c + (d + (e + rest))))
  {
    Append3(a, b + (c + (d + e)), rest);
    Append5(b, c, d, e, rest);
  }

  lemma Nothing(rest: seq<byte>)
    ensures [] + rest == rest
  {
  }

  lemma TimeReadsBack(t: i64, rest: seq<byte>)
    requires W.EncodeTime(t).Ok?
    ensures R.DecodeTime(W.EncodeTime(t).value + rest) == Ok((t, rest))
  {
    hide DecodeVarlong;
    VarlongRoundTripsExactly(t, 4, rest);
  }

  lemma NameReadsBack(name: seq<byte>, rest: seq<byte>)
    requires W.EncodeName(name).Ok? && Utf8(name)
    ensures R.DecodeName(W.EncodeName(name).value + rest) == Ok((name, rest))
  {
    var s := W.EncodeName(name).value + rest;
    assert s[1..] == name + rest;
    TakeAppended(name, rest);
  }

  lemma PathReadsBack(f: W.Flags, lim: Limits, last: seq<byte>, path: seq<byte>, rest: seq<byte>)
    requires var n := CommonPrefixLen(last, path);
             && (f.sameName <==> n > 0) && (f.longName <==> |path| - n > 255)
             && W.EncodePath(f, n, path[n..]).Ok?
    ensures var n := CommonPrefixLen(last, path);
            var head := W.EncodePath(f, n, path[n..]).value;
            match DecodeVarint(head + rest)
            case Err(_) => false
            case Ok((w, s)) =>
              && w == W.Word(f)
              && (f.modNsec ==> w != 0)
              && R.DecodePath(lim, last, w, s)
                 == (if |path| > lim.maxPathLen then Err(InvalidData) else Ok((path, rest)))
  {
    hide EncodeVarint, DecodeVarint, W.Word, CommonPrefixLen;
    var n := CommonPrefixLen(last, path);
    var suffix := path[n..];
    W.FlagBits(f);
    var flags := EncodeVarint(W.Word(f)).value;
    var length := (if f.longName then W.EncodeCount(|suffix|, PathTooLong) else Ok([|suffix|])).value;
    var prefix := if f.sameName then [n] else [];
    var tail := prefix + (length + (suffix + rest));
    Append5(flags, prefix, length, suffix, rest);
    assert W.EncodePath(f, n, suffix).value + rest == flags + tail;
    VarintRoundTrip(W.Word(f), tail);
    var afterPrefix := length + (suffix + rest);
    if f.sameName {
      assert tail[1..] == afterPrefix;
    } else {
      assert tail == afterPrefix;
    }
    if f.longName {
      VarintRoundTrip(|suffix|, suffix + rest);
    } else {
      assert afterPrefix[1..] == suffix + rest;
    }
    TakeAppended(suffix, rest);
    assert last[..n] + suffix == path;
  }

  lemma IdReadsBack(keep: bool, same: bool, id: u32, name: Option<seq<byte>>,
                    last: Option<u32>, lastName: Option<seq<byte>>, rest: seq<byte>)
    requires W.When(keep && !same, W.EncodeId(id, name)).Ok?
    requires (!keep ==> same) && (name.Some? ==> Utf8(name.value))
    ensures R.DecodeId(keep, same, name.Some?, last, lastName,
                       W.When(keep && !same, W.EncodeId(id, name)).value + rest)
         == Ok((if !keep then R.Owner(None, None) else if same then R.Owner(last, lastName)
                else R.Owner(Some(id), name), rest))
  {
    hide EncodeVarint, DecodeVarint, W.EncodeName, R.DecodeName;
    if same {
      Nothing(rest);
    } else {
      var number := EncodeVarint(id).value;
      var follows := W.When(name.Some?, W.EncodeName(name.GetOr([]))).value;
      Append3(number, follows, rest);
      VarintRoundTrip(id, follows + rest);
      if name.Some? {
        NameReadsBack(name.value, rest);
      } else {
        assert follows + rest == rest;
      }
    }
  }

  lemma XattrReadsBack(x: Xattr, rest: seq<byte>)
    requires W.EncodeXattr(x).Ok? && |x.name| < I32_MAX && Utf8(x.name)
    ensures R.DecodeXattr(W.EncodeXattr(x).value + rest) == Ok((x, rest))
  {
    hide EncodeVarint, DecodeVarint;
    var nameLen, valueLen := EncodeVarint(|x.name| + 1).value, EncodeVarint(|x.value|).value;
    var name := x.name + [0];
    assert x.name + ([0] + x.value) == name + x.value;
    Append5(nameLen, valueLen, name, x.value, rest);
    VarintRoundTrip(|x.name| + 1, valueLen + (name + (x.value + rest)));
    VarintRoundTrip(|x.value|, name + (x.value + rest));
    TakeAppended(name, x.value + rest);
    TakeAppended(x.value, rest);
    assert name[..|x.name|] == x.name;
  }

  lemma {:induction false} XattrsReadBack(xs: seq<Xattr>, rest: seq<byte>)
    requires W.EncodeXattrs(xs).Ok? && forall x :: x in xs ==> |x.name| < I32_MAX && Utf8(x.name)
    ensures R.DecodeXattrs(|xs|, W.EncodeXattrs(xs).value + rest) == Ok((xs, rest))
  {
    hide W.EncodeXattr, R.DecodeXattr;
    if xs == [] {
      Nothing(rest);
    } else {
      var first, more := W.EncodeXattr(xs[0]).value, W.EncodeXattrs(xs[1..]).value;
      Append3(first, more, rest);
      XattrReadsBack(xs[0], more + rest);
      XattrsReadBack(xs[1..], rest);
      assert [xs[0]] + xs[1..] == xs;
    }
  }

  predicate IsText(name: Option<seq<byte>>) {
    name.Some? ==> Utf8(name.value)
  }

  /** An entry in memory: names are text, and no count or name is so long that its 32-bit length would wrap. */
  predicate InMemory(e: Entry) {
    && |e.meta.xattrs| <= I32_MAX && (forall x :: x in e.meta.xattrs ==> |x.name| < I32_MAX && Utf8(x.name))
    && IsText(e.meta.userName) && IsText(e.meta.groupName)
  }

  lemma AclsReadBack(t: FileType, rest: seq<byte>)
    ensures R.DecodeAcls(t, W.EncodeAcls(t) + rest) == Ok(((), rest))
  {
    EmptyAclReadsBack(rest);
    if t.Directory? {
      Append3(W.EMPTY_ACL, W.EMPTY_ACL, rest);
      EmptyAclReadsBack(W.EMPTY_ACL + rest);
    }
  }

  lemma EmptyAclReadsBack(rest: seq<byte>)
    ensures R.DecodeEmptyAcl(W.EMPTY_ACL + rest) == Ok(((), rest))
  {
    var s := W.EMPTY_ACL + rest;
    assert s[1..] == [0] + rest;
    assert s[1..][1..] == rest;
  }

  lemma PayloadReadsBack(o: Options, e: Entry, rest: seq<byte>)
    requires o.fakeSuper ==> o.xattrs
    requires W.EncodePayload(o, e).Ok? && InMemory(e)
    ensures R.DecodePayload(o, e.fileType, W.EncodePayload(o, e).value + rest)
         == Ok((if o.xattrs then e.meta.xattrs else [], rest))
  {
    hide EncodeVarint, DecodeVarint, W.EncodeXattrs, R.DecodeXattrs, R.DecodePayload, W.EncodeAcls, R.DecodeAcls;
    AclsThen(o, e, rest);
    if o.xattrs {
      var xs := e.meta.xattrs;
      var index, count, items := EncodeVarint(0).value, EncodeVarint(|xs|).value, W.EncodeXattrs(xs).value;
      Append4(index, count, items, rest);
      VarintRoundTrip(0, count + (items + rest));
      VarintRoundTrip(|xs|, items + rest);
      XattrsReadBack(xs, rest);
    } else {
      Nothing(rest);
    }
  }

  // The ACL part of a payload, with the xattr part still to read.
  lemma AclsThen(o: Options, e: Entry, rest: seq<byte>)
    requires W.EncodePayload(o, e).Ok?
    ensures var xattrs := W.When(o.xattrs, W.EncodeXattrPayload(e.meta.xattrs)).value;
            (R.DecodePayload(o, e.fileType, W.EncodePayload(o, e).value + rest)
             == if o.xattrs || o.fakeSuper then R.DecodeXattrPayload(xattrs + rest) else Ok(([], xattrs + rest)))
  {
    hide W.EncodeXattrPayload, R.DecodeXattrPayload, W.EncodeAcls, R.DecodeAcls;
    var xattrs := W.When(o.xattrs, W.EncodeXattrPayload(e.meta.xattrs)).value;
    if o.acls && !e.fileType.Symlink? {
      Append3(W.EncodeAcls(e.fileType), xattrs, rest);
      AclsReadBack(e.fileType, xattrs + rest);
    } else {
      assert [] + xattrs + rest == xattrs + rest;
    }
  }

  lemma TimesReadBack(o: Options, w: u32, f: W.Flags, st: R.State, e: Entry, rest: seq<byte>)
    requires W.Carries(w, f)
    requires W.EncodeTimes(o, f, e).Ok?
    requires f.sameTime ==> st.mtime == Some(e.mtime)
    requires f.sameMode ==> st.mode == Some(e.mode)
    requires f.crtimeEqMtime ==> W.Crtime(e) == e.mtime
    ensures R.DecodeTimes(o, st, w, W.EncodeTimes(o, f, e).value + rest)
         == Ok((R.Times(e.len, e.mtime, e.mode, if o.crtimes then Some(W.Crtime(e)) else None), rest))
  {
    hide EncodeVarint, DecodeVarint, EncodeVarlong, DecodeVarlong, W.EncodeTime, R.DecodeTime;
    var len := EncodeVarlong(e.len, 3).value;
    var mtime := W.When(!f.sameTime, W.EncodeTime(e.mtime)).value;
    var nsec := W.When(f.modNsec, EncodeVarint(0)).value;
    var mode := if f.sameMode then [] else Le(e.mode, 4);
    var crtime := W.When(o.crtimes && !f.crtimeEqMtime, W.EncodeTime(W.Crtime(e))).value;
    var s4 := crtime + rest;
    var s3 := mode + s4;
    var s2 := nsec + s3;
    var s1 := mtime + s2;
    Append6(len, mtime, nsec, mode, crtime, rest);
    assert W.EncodeTimes(o, f, e).value + rest == len + s1;
    VarlongRoundTripsExactly(e.len, 3, s1);
    if f.sameTime { assert s1 == s2; } else { TimeReadsBack(e.mtime, s2); }
    if f.modNsec { VarintRoundTrip(0, s3); } else { assert s2 == s3; }
    if f.sameMode { assert s3 == s4; } else { U32RoundTrip(e.mode, s4); }
    if o.crtimes && !f.crtimeEqMtime { TimeReadsBack(W.Crtime(e), rest); } else { assert s4 == rest; }
  }

  /** The user name the reader gives an entry sent in full; a repeated id keeps the last name seen. */
  function ReceivedName(keep: bool, same: bool, follows: bool, name: Option<seq<byte>>, last: Option<seq<byte>>)
    : Option<seq<byte>>
  {
    if !keep then None else if same then last else if follows then name else None
  }

  function ReceivedOwners(o: Options, f: W.Flags, st: R.State, e: Entry): R.Owners {
    R.Owners(
      if o.atimes && !e.fileType.Directory? then Some(W.Atime(e)) else None,
      R.Owner(if o.preserveOwner then Some(W.Uid(e)) else None,
              ReceivedName(o.preserveOwner, f.sameUid, f.userNameFollows, e.meta.userName, st.userName)),
      R.Owner(if o.preserveGroup then Some(W.Gid(e)) else None,
              ReceivedName(o.preserveGroup, f.sameGid, f.groupNameFollows, e.meta.groupName, st.groupName)),
      if o.includeChecksums && e.fileType.File? then e.checksum else None)
  }

  lemma AtimeReadsBack(o: Options, w: u32, f: W.Flags, st: R.State, e: Entry, rest: seq<byte>)
    requires W.Has(w, W.SAME_ATIME) == f.sameAtime
    requires W.When(o.atimes && !e.fileType.Directory? && !f.sameAtime, W.EncodeTime(W.Atime(e))).Ok?
    requires f.sameAtime ==> st.atime == Some(W.Atime(e))
    ensures var bytes := W.When(o.atimes && !e.fileType.Directory? && !f.sameAtime, W.EncodeTime(W.Atime(e))).value;
            (R.DecodeAtime(o, st, w, e.fileType, bytes + rest)
             == Ok((if o.atimes && !e.fileType.Directory? then Some(W.Atime(e)) else None, rest)))
  {
    if o.atimes && !e.fileType.Directory? && !f.sameAtime {
      TimeReadsBack(W.Atime(e), rest);
    } else {
      Nothing(rest);
    }
  }

  lemma ChecksumReadsBack(sent: bool, c: Option<Checksum>, rest: seq<byte>)
    requires sent ==> c.Some?
    ensures R.DecodeChecksum(sent, (if sent then c.value else []) + rest)
         == Ok((if sent then c else None, rest))
  {
    if sent {
      TakeAppended(c.value, rest);
    } else {
      Nothing(rest);
    }
  }

  lemma IdsReadBack(o: Options, w: u32, f: W.Flags, st: R.State, e: Entry, rest: seq<byte>)
    requires W.Carries(w, f) && W.EncodeIds(o, f, e).Ok? && InMemory(e)
    requires !o.preserveOwner ==> f.sameUid
    requires !o.preserveGroup ==> f.sameGid
    requires f.sameUid && o.preserveOwner ==> st.uid == Some(W.Uid(e))
    requires f.sameGid && o.preserveGroup ==> st.gid == Some(W.Gid(e))
    requires f.userNameFollows ==> e.meta.userName.Some? && !f.sameUid
    requires f.groupNameFollows ==> e.meta.groupName.Some? && !f.sameGid
    ensures var own := ReceivedOwners(o, f, st, e);
            R.DecodeIds(o, st, w, W.EncodeIds(o, f, e).value + rest) == Ok(((own.user, own.grp), rest))
  {
    hide W.EncodeId, W.Has, R.DecodeId;
    var userName, groupName :=
      W.SentName(f.userNameFollows, e.meta.userName), W.SentName(f.groupNameFollows, e.meta.groupName);
    var user := W.When(o.preserveOwner && !f.sameUid, W.EncodeId(W.Uid(e), userName)).value;
    var grp := W.When(o.preserveGroup && !f.sameGid, W.EncodeId(W.Gid(e), groupName)).value;
    Append3(user, grp, rest);
    IdReadsBack(o.preserveOwner, f.sameUid, W.Uid(e), userName, st.uid, st.userName, grp + rest);
    IdReadsBack(o.preserveGroup, f.sameGid, W.Gid(e), groupName, st.gid, st.groupName, rest);
  }

  lemma OwnersReadBack(o: Options, w: u32, f: W.Flags, st: R.State, e: Entry, rest: seq<byte>)
    requires W.Carries(w, f) && W.EncodeOwners(o, f, e).Ok? && InMemory(e)
    requires f.sameAtime ==> st.atime == Some(W.Atime(e))
    requires !o.preserveOwner ==> f.sameUid
    requires !o.preserveGroup ==> f.sameGid
    requires f.sameUid && o.preserveOwner ==> st.uid == Some(W.Uid(e))
    requires f.sameGid && o.preserveGroup ==> st.gid == Some(W.Gid(e))
    requires f.userNameFollows ==> e.meta.userName.Some? && !f.sameUid
    requires f.groupNameFollows ==> e.meta.groupName.Some? && !f.sameGid
    ensures R.DecodeOwners(o, st, w, e.fileType, W.EncodeOwners(o, f, e).value + rest)
         == Ok((ReceivedOwners(o, f, st, e), rest))
  {
    hide W.EncodeTime, W.EncodeIds, W.Has, R.DecodeIds, R.DecodeAtime, R.DecodeChecksum;
    var atime := W.When(o.atimes && !e.fileType.Directory? && !f.sameAtime, W.EncodeTime(W.Atime(e))).value;
    var ids := W.EncodeIds(o, f, e).value;
    var sent := o.includeChecksums && e.fileType.File?;
    var checksum: seq<byte> := if sent then e.checksum.value else [];
    Append4(atime, ids, checksum, rest);
    AtimeReadsBack(o, w, f, st, e, ids + (checksum + rest));
    IdsReadBack(o, w, f, st, e, checksum + rest);
    ChecksumReadsBack(sent, e.checksum, rest);
  }
}
