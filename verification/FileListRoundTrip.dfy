/** What a reader makes of a written list, and exactly when that is the list itself. */
module FileListRoundTrip {
  import opened Wire
  import opened Varint
  import opened FileEntry
  import opened FileListSteps
  import W = FileListWriter
  import R = FileListReader

  /** Writer and reader remember the same last entry, and index the same hard-link groups. */
  ghost predicate Coupled(w: W.State, r: R.State) {
    && r.path == w.path && r.mode == w.mode && r.mtime == w.mtime
    && r.uid == w.uid && r.gid == w.gid && r.atime == w.atime
    && |r.entries| == w.nextIndex
    && forall g :: g in w.groups ==>
                     && w.groups[g] < |r.entries|
                     && r.entries[w.groups[g]].fileType.File?
                     && r.entries[w.groups[g]].hardLink == Some(HardLinkGroup(0, w.groups[g]))
  }

  /** The entry rebuilt from what was sent in full, with the xattrs read for it. */
  function FreshReceived(o: Options, w: W.State, r: R.State, e: Entry, xattrs: seq<Xattr>): Entry {
    var own := ReceivedOwners(o, W.EntryFlags(o, w, e), r, e);
    Entry(ToWirePath(e.path), e.fileType, e.len, e.mtime, e.mode, own.checksum,
          if W.InGroup(e) then Some(HardLinkGroup(0, |r.entries|)) else None,
          Metadata(own.user.id, own.grp.id, own.user.name, own.grp.name, own.atime,
                   if o.crtimes then Some(W.Crtime(e)) else None, xattrs))
  }

  /** The entry rebuilt from the first member of its group. */
  function CopyReceived(r: R.State, first: nat, e: Entry, xattrs: seq<Xattr>): Entry
    requires first < |r.entries|
  {
    var f := r.entries[first];
    f.(path := ToWirePath(e.path), hardLink := Some(f.hardLink.GetOr(HardLinkGroup(0, first))),
       meta := f.meta.(xattrs := xattrs))
  }

  function Received(o: Options, w: W.State, r: R.State, e: Entry, xattrs: seq<Xattr>): Entry
    requires W.Reference(w, e).Some? ==> W.Reference(w, e).value < |r.entries|
  {
    match W.Reference(w, e)
    case Some(first) => CopyReceived(r, first, e, xattrs)
    case None => FreshReceived(o, w, r, e, xattrs)
  }

  lemma FreshReadsBack(o: Options, w: W.State, r: R.State, e: Entry, word: u32, payload: seq<byte>)
    requires Coupled(w, r) && W.Reference(w, e).None? && InMemory(e)
    requires W.EncodeFields(o, W.EntryFlags(o, w, e), e).Ok?
    requires W.Carries(word, W.EntryFlags(o, w, e))
    ensures var d := R.DecodeFresh(o, r, word, ToWirePath(e.path),
                                   W.EncodeFields(o, W.EntryFlags(o, w, e), e).value + payload);
            && (d.Ok? ==> d.value.0.mode == e.mode)
            && (FileTypeFromMode(e.mode) == Ok(e.fileType) ==>
                  d == match R.DecodePayload(o, e.fileType, payload)
                       case Err(x) => Err(x)
                       case Ok((xs, s)) => Ok((FreshReceived(o, w, r, e, xs), s)))
  {
    hide W.EncodeTimes, W.EncodeOwners, R.DecodeTimes, R.DecodeOwners, R.DecodePayload;
    var f := W.EntryFlags(o, w, e);
    var times, owners := W.EncodeTimes(o, f, e).value, W.EncodeOwners(o, f, e).value;
    Append3(times, owners, payload);
    TimesReadBack(o, word, f, r, e, owners + payload);
    OwnersReadBack(o, word, f, r, e, payload);
  }

  lemma CopyReadsBack(o: Options, w: W.State, r: R.State, e: Entry, payload: seq<byte>)
    requires Coupled(w, r) && W.Reference(w, e).Some?
    requires W.EncodeCount(W.Reference(w, e).value, InvalidInput).Ok?
    ensures var first := W.Reference(w, e).value;
            (R.DecodeReference(o, r, ToWirePath(e.path), W.EncodeCount(first, InvalidInput).value + payload)
             == match R.DecodePayload(o, e.fileType, payload)
                case Err(x) => Err(x)
                case Ok((xs, s)) => Ok((CopyReceived(r, first, e, xs), s)))
  {
    hide EncodeVarint, DecodeVarint, R.DecodePayload;
    VarintRoundTrip(W.Reference(w, e).value, payload);
  }

  /** Reading one written entry, up to its ACL and xattr payload. */
  lemma EntryReadsBack(o: Options, lim: Limits, w: W.State, r: R.State, e: Entry, rest: seq<byte>)
    requires Coupled(w, r) && W.EncodeEntry(o, w, e).Ok? && InMemory(e)
    ensures match DecodeVarint(W.EncodeEntry(o, w, e).value + rest)
            case Err(_) => false
            case Ok((word, s)) =>
              && word != 0
              && var path := ToWirePath(e.path);
              var d := R.DecodeEntry(o, lim, r, word, s);
              if |path| > lim.maxPathLen || !ValidWirePath(path) then d.Err?
              else
                && (d.Ok? && W.Reference(w, e).None? ==>
                    d.value.0.mode == e.mode && FileTypeFromMode(e.mode) == Ok(d.value.0.fileType))
                && (W.Reference(w, e).Some? || FileTypeFromMode(e.mode) == Ok(e.fileType) ==>
                      d == match R.DecodePayload(o, e.fileType, W.EncodePayload(o, e).value + rest)
                           case Err(x) => Err(x)
                           case Ok((xs, t)) => Ok((Received(o, w, r, e, xs), t)))
  {
    hide DecodeVarint, EncodeVarint, W.EncodePath, W.EncodeFields, W.EncodePayload, R.DecodePath;
    hide R.DecodePayload, R.DecodeFresh, R.DecodeReference, W.EncodeCount, FileTypeFromMode, ValidWirePath;
    hide FreshReceived, CopyReceived, W.Word;
    var f := W.EntryFlags(o, w, e);
    var path := ToWirePath(e.path);
    var n := CommonPrefixLen(w.path, path);
    var head, body, payload :=
      W.EncodePath(f, n, path[n..]).value, W.EncodeBody(o, w, e).value, W.EncodePayload(o, e).value;
    Append4(head, body, payload, rest);
    PathReadsBack(f, lim, w.path, path, body + (payload + rest));
    W.FlagBits(f);
    if W.Reference(w, e).Some? {
      CopyReadsBack(o, w, r, e, payload + rest);
    } else {
      FreshReadsBack(o, w, r, e, W.Word(f), payload + rest);
    }
  }
}
