/** Exactly which file lists a reader gives back as they were written. */
module FileListExact {
  import opened Wire
  import opened Varint
  import opened FileEntry
  import opened FileListSteps
  import opened FileListRoundTrip
  import W = FileListWriter
  import R = FileListReader

  /** The index of the first member of group `g`, or the length when there is none. */
  function FirstIn(es: seq<Entry>, g: HardLinkGroup): (n: nat)
    ensures n <= |es|
    ensures n < |es| ==> W.InGroup(es[n]) && es[n].hardLink.value == g
    ensures forall j :: 0 <= j < n ==> !(W.InGroup(es[j]) && es[j].hardLink.value == g)
  {
    if es == [] then 0
    else if W.InGroup(es[0]) && es[0].hardLink.value == g then 0
    else 1 + FirstIn(es[1..], g)
  }

  /** Groups carry no device or inode on the wire: each is renamed after its first member's index. */
  function RenamedGroup(es: seq<Entry>, h: Option<HardLinkGroup>): Option<HardLinkGroup> {
    match h
    case None => None
    case Some(g) => Some(HardLinkGroup(0, FirstIn(es, g)))
  }

  function Renamed(es: seq<Entry>): (r: seq<Entry>)
    ensures |r| == |es|
    ensures forall k :: 0 <= k < |es| ==> r[k] == es[k].(hardLink := RenamedGroup(es, es[k].hardLink))
  {
    seq(|es|, k requires 0 <= k < |es| => es[k].(hardLink := RenamedGroup(es, es[k].hardLink)))
  }

  predicate IsReference(es: seq<Entry>, k: nat)
    requires k < |es|
  {
    W.InGroup(es[k]) && FirstIn(es, es[k].hardLink.value) < k
  }

  function LastUserName(es: seq<Entry>): Option<seq<byte>> {
    if es == [] then None
    else if es[|es| - 1].meta.userName.Some? then es[|es| - 1].meta.userName
    else LastUserName(es[..|es| - 1])
  }

  function LastGroupName(es: seq<Entry>): Option<seq<byte>> {
    if es == [] then None
    else if es[|es| - 1].meta.groupName.Some? then es[|es| - 1].meta.groupName
    else LastGroupName(es[..|es| - 1])
  }

  predicate RepeatsUser(es: seq<Entry>, k: nat)
    requires k < |es|
  {
    k > 0 && W.Uid(es[k - 1]) == W.Uid(es[k])
  }

  predicate RepeatsGroup(es: seq<Entry>, k: nat)
    requires k < |es|
  {
    k > 0 && W.Gid(es[k - 1]) == W.Gid(es[k])
  }

  /**
   * A name survives when ids are kept, and then: a repeated id must repeat the last name seen in the
   * list, whichever id that name came with; a new id loses its name under numeric ids.
   */
  predicate NameKept(keep: bool, numeric: bool, repeated: bool, name: Option<seq<byte>>, last: Option<seq<byte>>) {
    if !keep then name.None? else if repeated then name == last else numeric ==> name.None?
  }

  /** An entry sent in full is rebuilt when it holds exactly the fields the options carry. */
  predicate KeptFresh(o: Options, es: seq<Entry>, k: nat)
    requires k < |es|
  {
    var e := es[k];
    && FileTypeFromMode(e.mode) == Ok(e.fileType)
    && (e.hardLink.Some? ==> e.fileType.File?)
    && (e.checksum.Some? <==> o.includeChecksums && e.fileType.File?)
    && (e.meta.uid.Some? <==> o.preserveOwner)
    && (e.meta.gid.Some? <==> o.preserveGroup)
    && NameKept(o.preserveOwner, o.numericIds, RepeatsUser(es, k), e.meta.userName, LastUserName(es[..k]))
    && NameKept(o.preserveGroup, o.numericIds, RepeatsGroup(es, k), e.meta.groupName, LastGroupName(es[..k]))
    && (e.meta.atime.Some? <==> o.atimes && !e.fileType.Directory?)
    && (e.meta.crtime.Some? <==> o.crtimes)
  }

  /** A later member of a group must agree with the first on everything but its path and xattrs. */
  predicate Agrees(e: Entry, first: Entry) {
    e == first.(path := e.path, meta := first.meta.(xattrs := e.meta.xattrs))
  }

  predicate Kept(o: Options, lim: Limits, es: seq<Entry>, k: nat)
    requires k < |es|
  {
    var e := es[k];
    && k < lim.maxEntries
    && |e.path| <= lim.maxPathLen && BACKSLASH !in e.path && ValidWirePath(e.path)
    && (e.meta.xattrs == [] || o.xattrs)
    && if IsReference(es, k) then Agrees(e, es[FirstIn(es, e.hardLink.value)]) else KeptFresh(o, es, k)
  }

  /** The lists that survive: a condition on the entries alone, checkable before writing. */
  predicate Faithful(o: Options, lim: Limits, es: seq<Entry>) {
    && (es != [] && o.fakeSuper ==> o.xattrs)
    && forall k :: 0 <= k < |es| ==> Kept(o, lim, es, k)
  }

  ghost predicate KeptBelow(o: Options, lim: Limits, es: seq<Entry>, k: nat)
    requires k <= |es|
  {
    forall j :: 0 <= j < k ==> Kept(o, lim, es, j)
  }

  // Fields every kept entry has, sent in full or copied.
  lemma KeptFields(o: Options, lim: Limits, es: seq<Entry>, k: nat)
    requires k < |es| && KeptBelow(o, lim, es, k + 1)
    ensures var e := es[k];
            && FileTypeFromMode(e.mode) == Ok(e.fileType)
            && (e.hardLink.Some? ==> e.fileType.File?)
            && (e.meta.uid.Some? <==> o.preserveOwner) && (e.meta.gid.Some? <==> o.preserveGroup)
            && (e.meta.atime.Some? <==> o.atimes && !e.fileType.Directory?)
            && (!o.preserveOwner ==> e.meta.userName.None?) && (!o.preserveGroup ==> e.meta.groupName.None?)
            && ToWirePath(e.path) == e.path
  {
    var e := es[k];
    assert Kept(o, lim, es, k);
    if IsReference(es, k) {
      var first := FirstIn(es, e.hardLink.value);
      assert Kept(o, lim, es, first) && !IsReference(es, first);
      assert KeptFresh(o, es, first);
    }
  }

  function WriterAt(o: Options, es: seq<Entry>, k: nat): W.State
    requires k <= |es|
  {
    W.RecordAll(o, W.INITIAL, es[..k])
  }

  function ReaderAt(o: Options, es: seq<Entry>, k: nat): R.State
    requires k <= |es|
  {
    if k == 0 then R.INITIAL else R.Push(o, ReaderAt(o, es, k - 1), Renamed(es)[k - 1])
  }

  lemma WriterStep(o: Options, es: seq<Entry>, k: nat)
    requires k < |es|
    ensures WriterAt(o, es, k + 1) == W.Record(o, WriterAt(o, es, k), es[k])
  {
    hide W.Record, W.EncodeEntries;
    assert es[..k + 1] == es[..k] + [es[k]];
    W.SplitIndependence(o, W.INITIAL, es[..k], [es[k]]);
    var st := WriterAt(o, es, k);
    assert W.RecordAll(o, st, [es[k]]) == W.RecordAll(o, W.Record(o, st, es[k]), []);
  }

  /** The writer's table holds the groups begun so far, each under its first member's index. */
  lemma {:induction false} GroupTable(o: Options, es: seq<Entry>, k: nat)
    requires k <= |es|
    ensures var w := WriterAt(o, es, k);
            && w.nextIndex == k
            && forall g :: (g in w.groups <==> FirstIn(es, g) < k) && (g in w.groups ==> w.groups[g] == FirstIn(es, g))
  {
    if k > 0 {
      hide FirstIn, WriterAt;
      WriterStep(o, es, k - 1);
      GroupTable(o, es, k - 1);
      var w, e := WriterAt(o, es, k - 1), es[k - 1];
      forall g
        ensures FirstIn(es, g) == k - 1 <==> (W.InGroup(e) && e.hardLink.value == g && g !in w.groups)
      {
        if W.InGroup(e) && e.hardLink.value == g {
          assert FirstIn(es, g) <= k - 1;
        }
      }
    }
  }

  lemma {:induction false} ReaderEntries(o: Options, es: seq<Entry>, k: nat)
    requires k <= |es|
    ensures ReaderAt(o, es, k).entries == Renamed(es)[..k]
  {
    if k > 0 {
      ReaderEntries(o, es, k - 1);
      assert Renamed(es)[..k] == Renamed(es)[..k - 1] + [Renamed(es)[k - 1]];
    }
  }

  lemma {:induction false} ReaderNames(o: Options, lim: Limits, es: seq<Entry>, k: nat)
    requires k <= |es| && KeptBelow(o, lim, es, k)
    ensures o.preserveOwner ==> ReaderAt(o, es, k).userName == LastUserName(es[..k])
    ensures o.preserveGroup ==> ReaderAt(o, es, k).groupName == LastGroupName(es[..k])
  {
    if k > 0 {
      ReaderNames(o, lim, es, k - 1);
      assert es[..k][..k - 1] == es[..k - 1];
    }
  }

  /** Along a prefix of kept entries, writer and reader stay in step. */
  lemma {:induction false} InStep(o: Options, lim: Limits, es: seq<Entry>, k: nat)
    requires k <= |es| && KeptBelow(o, lim, es, k)
    ensures Coupled(WriterAt(o, es, k), ReaderAt(o, es, k))
  {
    hide ValidWirePath, FileTypeFromMode, LastUserName, LastGroupName, ToWirePath;
    GroupTable(o, es, k);
    ReaderEntries(o, es, k);
    if k > 0 {
      InStep(o, lim, es, k - 1);
      WriterStep(o, es, k - 1);
      KeptFields(o, lim, es, k - 1);
      var w, r := WriterAt(o, es, k), ReaderAt(o, es, k);
      forall g | g in w.groups
        ensures r.entries[FirstIn(es, g)].hardLink == Some(HardLinkGroup(0, FirstIn(es, g)))
        ensures r.entries[FirstIn(es, g)].fileType.File?
      {
      }
    }
  }

  /** Given the xattrs sent, what the reader rebuilds is the renamed entry exactly when it is kept. */
  lemma ReceivedIsKept(o: Options, lim: Limits, es: seq<Entry>, k: nat)
    requires k < |es| && KeptBelow(o, lim, es, k) && k < lim.maxEntries
    requires ValidWirePath(ToWirePath(es[k].path)) && |es[k].path| <= lim.maxPathLen
    requires IsReference(es, k) || FileTypeFromMode(es[k].mode) == Ok(es[k].fileType)
    requires W.When(o.includeChecksums && es[k].fileType.File?,
                    match es[k].checksum case Some(c) => Ok(c) case None => Err(MissingChecksum)).Ok?
                      || IsReference(es, k)
    ensures Coupled(WriterAt(o, es, k), ReaderAt(o, es, k))
    ensures W.Reference(WriterAt(o, es, k), es[k]).Some? <==> IsReference(es, k)
    ensures var w, r := WriterAt(o, es, k), ReaderAt(o, es, k);
            Received(o, w, r, es[k], if o.xattrs then es[k].meta.xattrs else []) == Renamed(es)[k] <==>
              Kept(o, lim, es, k)
  {
    InStep(o, lim, es, k);
    GroupTable(o, es, k);
    ReaderEntries(o, es, k);
    var w, r, e := WriterAt(o, es, k), ReaderAt(o, es, k), es[k];
    if IsReference(es, k) {
      CopyIsKept(o, lim, es, k);
    } else {
      FreshIsKept(o, lim, es, k);
    }
  }

  lemma CopyIsKept(o: Options, lim: Limits, es: seq<Entry>, k: nat)
    requires k < |es| && KeptBelow(o, lim, es, k) && k < lim.maxEntries
    requires ValidWirePath(ToWirePath(es[k].path)) && |es[k].path| <= lim.maxPathLen
    requires IsReference(es, k)
    ensures var first := FirstIn(es, es[k].hardLink.value);
            && first < |ReaderAt(o, es, k).entries|
            && (CopyReceived(ReaderAt(o, es, k), first, es[k], if o.xattrs then es[k].meta.xattrs else [])
                == Renamed(es)[k]
                <==> Kept(o, lim, es, k))
  {
    hide ValidWirePath, FileTypeFromMode, ToWirePath;
    ReaderEntries(o, es, k);
    var first := FirstIn(es, es[k].hardLink.value);
    var f, e := es[first], es[k];
    assert ReaderAt(o, es, k).entries[first] == Renamed(es)[first];
    assert RenamedGroup(es, f.hardLink) == RenamedGroup(es, e.hardLink) == Some(HardLinkGroup(0, first));
  }

  lemma NameMatches(keep: bool, numeric: bool, same: bool, follows: bool, repeated: bool,
                    name: Option<seq<byte>>, last: Option<seq<byte>>)
    requires follows == (!same && !numeric && name.Some?) && (keep ==> same == repeated)
    ensures ReceivedName(keep, same, follows, name, last) == name <==> NameKept(keep, numeric, repeated, name, last)
  {
  }

  lemma UnkeptName(numeric: bool, repeated: bool, name: Option<seq<byte>>, a: Option<seq<byte>>, b: Option<seq<byte>>)
    ensures NameKept(false, numeric, repeated, name, a) == NameKept(false, numeric, repeated, name, b)
  {
  }

  // What decides an entry's name flags: the id it shares, or not, with the entry before.
  lemma IdFlags(o: Options, lim: Limits, es: seq<Entry>, k: nat)
    requires k < |es| && KeptBelow(o, lim, es, k)
    ensures var f, e := W.EntryFlags(o, WriterAt(o, es, k), es[k]), es[k];
            && (o.preserveOwner ==> f.sameUid == RepeatsUser(es, k))
            && (o.preserveGroup ==> f.sameGid == RepeatsGroup(es, k))
            && f.userNameFollows == (!f.sameUid && !o.numericIds && e.meta.userName.Some?)
            && f.groupNameFollows == (!f.sameGid && !o.numericIds && e.meta.groupName.Some?)
  {
    hide ToWirePath, CommonPrefixLen;
    if k > 0 {
      WriterStep(o, es, k - 1);
    }
  }

  lemma FreshGroup(es: seq<Entry>, k: nat)
    requires k < |es| && !IsReference(es, k)
    ensures (if W.InGroup(es[k]) then Some(HardLinkGroup(0, k)) else None) == RenamedGroup(es, es[k].hardLink)
       <==> (es[k].hardLink.Some? ==> es[k].fileType.File?)
  {
    if W.InGroup(es[k]) {
      assert FirstIn(es, es[k].hardLink.value) == k;
    }
  }

  lemma OptionalFields(o: Options, e: Entry)
    ensures (if o.preserveOwner then Some(W.Uid(e)) else None) == e.meta.uid <==>
              (e.meta.uid.Some? <==> o.preserveOwner)
    ensures (if o.preserveGroup then Some(W.Gid(e)) else None) == e.meta.gid <==>
              (e.meta.gid.Some? <==> o.preserveGroup)
    ensures (if o.atimes && !e.fileType.Directory? then Some(W.Atime(e)) else None) == e.meta.atime
       <==> (e.meta.atime.Some? <==> o.atimes && !e.fileType.Directory?)
    ensures (if o.crtimes then Some(W.Crtime(e)) else None) == e.meta.crtime <==> (e.meta.crtime.Some? <==> o.crtimes)
  {
  }

  predicate FieldsSurvive(o: Options, w: W.State, r: R.State, e: Entry, h: Option<HardLinkGroup>, xs: seq<Xattr>) {
    var f := W.EntryFlags(o, w, e);
    && ToWirePath(e.path) == e.path
    && (if W.InGroup(e) then Some(HardLinkGroup(0, |r.entries|)) else None) == h
    && (if o.includeChecksums && e.fileType.File? then e.checksum else None) == e.checksum
    && (if o.preserveOwner then Some(W.Uid(e)) else None) == e.meta.uid
    && (if o.preserveGroup then Some(W.Gid(e)) else None) == e.meta.gid
    && ReceivedName(o.preserveOwner, f.sameUid, f.userNameFollows, e.meta.userName, r.userName) == e.meta.userName
    && ReceivedName(o.preserveGroup, f.sameGid, f.groupNameFollows, e.meta.groupName, r.groupName) == e.meta.groupName
    && (if o.atimes && !e.fileType.Directory? then Some(W.Atime(e)) else None) == e.meta.atime
    && (if o.crtimes then Some(W.Crtime(e)) else None) == e.meta.crtime
    && xs == e.meta.xattrs
  }

  /** A rebuilt entry is the sent one, with its group renamed, exactly when each field came through. */
  lemma FieldByField(o: Options, w: W.State, r: R.State, e: Entry, h: Option<HardLinkGroup>, xs: seq<Xattr>)
    ensures FreshReceived(o, w, r, e, xs) == e.(hardLink := h) <==> FieldsSurvive(o, w, r, e, h, xs)
  {
    hide W.EntryFlags, ToWirePath, ReceivedName, W.InGroup, W.Uid, W.Gid, W.Atime, W.Crtime;
    var x := FreshReceived(o, w, r, e, xs);
    SameMeta(x.meta, e.meta);
    SameEntry(x, e.(hardLink := h));
  }

  lemma SameMeta(x: Metadata, y: Metadata)
    ensures x == y <==> x.uid == y.uid && x.gid == y.gid && x.userName == y.userName && x.groupName == y.groupName
                        && x.atime == y.atime && x.crtime == y.crtime && x.xattrs == y.xattrs
  {
  }

  lemma SameEntry(x: Entry, y: Entry)
    requires x.fileType == y.fileType && x.len == y.len && x.mtime == y.mtime && x.mode == y.mode
    ensures x == y <==> x.path == y.path && x.checksum == y.checksum && x.hardLink == y.hardLink && x.meta == y.meta
  {
  }

  // Both names, between the reader's memory and the list.
  lemma NamesSurvive(o: Options, lim: Limits, es: seq<Entry>, k: nat)
    requires k < |es| && KeptBelow(o, lim, es, k)
    ensures var e, r, f := es[k], ReaderAt(o, es, k), W.EntryFlags(o, WriterAt(o, es, k), es[k]);
            ReceivedName(o.preserveOwner, f.sameUid, f.userNameFollows, e.meta.userName, r.userName)
            == e.meta.userName <==>
            NameKept(o.preserveOwner, o.numericIds, RepeatsUser(es, k), e.meta.userName, LastUserName(es[..k]))
    ensures var e, r, f := es[k], ReaderAt(o, es, k), W.EntryFlags(o, WriterAt(o, es, k), es[k]);
            ReceivedName(o.preserveGroup, f.sameGid, f.groupNameFollows, e.meta.groupName, r.groupName)
            == e.meta.groupName <==>
            NameKept(o.preserveGroup, o.numericIds, RepeatsGroup(es, k), e.meta.groupName, LastGroupName(es[..k]))
  {
    hide LastUserName, LastGroupName, W.EntryFlags, WriterAt, ReaderAt, NameKept, ReceivedName, KeptBelow, RepeatsUser,
      RepeatsGroup;
    ReaderNames(o, lim, es, k);
    IdFlags(o, lim, es, k);
    var e, r, f := es[k], ReaderAt(o, es, k), W.EntryFlags(o, WriterAt(o, es, k), es[k]);
    UnkeptName(o.numericIds, RepeatsUser(es, k), e.meta.userName, r.userName, LastUserName(es[..k]));
    UnkeptName(o.numericIds, RepeatsGroup(es, k), e.meta.groupName, r.groupName, LastGroupName(es[..k]));
    NameMatches(o.preserveOwner, o.numericIds, f.sameUid, f.userNameFollows, RepeatsUser(es, k), e.meta.userName,
                r.userName);
    NameMatches(o.preserveGroup, o.numericIds, f.sameGid, f.groupNameFollows, RepeatsGroup(es, k), e.meta.groupName,
                r.groupName);
  }

  lemma FreshIsKept(o: Options, lim: Limits, es: seq<Entry>, k: nat)
    requires k < |es| && KeptBelow(o, lim, es, k) && k < lim.maxEntries
    requires ValidWirePath(ToWirePath(es[k].path)) && |es[k].path| <= lim.maxPathLen
    requires !IsReference(es, k) && FileTypeFromMode(es[k].mode) == Ok(es[k].fileType)
    requires o.includeChecksums && es[k].fileType.File? ==> es[k].checksum.Some?
    ensures FreshReceived(o, WriterAt(o, es, k), ReaderAt(o, es, k), es[k], if o.xattrs then es[k].meta.xattrs else [])
         == Renamed(es)[k]
       <==> Kept(o, lim, es, k)
  {
    hide ValidWirePath, FileTypeFromMode, ToWirePath, LastUserName, LastGroupName, FreshReceived, W.EntryFlags,
      WriterAt, ReaderAt, NameKept, ReceivedName, KeptBelow, FirstIn, RenamedGroup, IsReference, W.InGroup, W.Atime,
      W.Crtime, W.Uid, W.Gid, RepeatsUser, RepeatsGroup;
    var e := es[k];
    ReaderEntries(o, es, k);
    NamesSurvive(o, lim, es, k);
    FreshGroup(es, k);
    OptionalFields(o, e);
    FieldByField(o, WriterAt(o, es, k), ReaderAt(o, es, k), e, RenamedGroup(es, e.hardLink),
                 if o.xattrs then e.meta.xattrs else []);
  }
}
