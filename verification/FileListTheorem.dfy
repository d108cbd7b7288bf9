/** The protocol-31 list codec's main results. */
module FileListTheorem {
  import opened Wire
  import opened Varint
  import opened FileEntry
  import opened FileListSteps
  import opened FileListRoundTrip
  import opened FileListExact
  import W = FileListWriter
  import R = FileListReader

  // A reader only ever adds to the entries it has.
  lemma {:induction false} DecodeExtends(o: Options, lim: Limits, st: R.State, s: seq<byte>)
    ensures R.DecodeEntries(o, lim, st, s).Ok? ==> st.entries <= R.DecodeEntries(o, lim, st, s).value.0
    ensures R.DecodeEntries(o, lim, st, s).Ok? ==> |R.DecodeEntries(o, lim, st, s).value.1| <= |s| - 2
    decreases |s|
  {
    hide DecodeVarint, R.DecodeEntry;
    var d := DecodeVarint(s);
    if d.Ok? && d.value.0 != 0 && |st.entries| < lim.maxEntries {
      var e := R.DecodeEntry(o, lim, st, d.value.0, d.value.1);
      if e.Ok? {
        DecodeExtends(o, lim, R.Push(o, st, e.value.0), e.value.1);
      }
    }
  }

  predicate Yields(d: Parsed<seq<Entry>>, es: seq<Entry>) {
    d.Ok? && d.value.0 == Renamed(es)
  }

  // Once a wrong entry is pushed, no continuation can yield the right list.
  lemma WrongEntry(o: Options, lim: Limits, es: seq<Entry>, k: nat, e: Entry, s: seq<byte>)
    requires k < |es| && e != Renamed(es)[k]
    ensures !Yields(R.DecodeEntries(o, lim, R.Push(o, ReaderAt(o, es, k), e), s), es)
  {
    hide R.DecodeEntries, ReaderAt;
    ReaderEntries(o, es, k);
    DecodeExtends(o, lim, R.Push(o, ReaderAt(o, es, k), e), s);
    assert R.Push(o, ReaderAt(o, es, k), e).entries[k] == e;
  }

  lemma EndReads(o: Options, lim: Limits, r: R.State, tail: seq<byte>)
    ensures R.DecodeEntries(o, lim, r, W.END + tail) == Ok((r.entries, tail))
  {
    VarintRoundTrip(0, [0] + tail);
    VarintRoundTrip(0, tail);
    ZeroVarint();
    assert W.END + tail == [0] + ([0] + tail);
  }

  lemma ZeroVarint()
    ensures EncodeVarint(0) == Ok([0])
  {
    assert SignificantBytes(0, 1) == 1 by { Pow256Values(); }
    assert Pow256(0) == 1;
    DivUnique(0, 1, 0, 0);
    assert [0] + Le(0, 0) == [0];
  }

  predicate Writable(es: seq<Entry>) {
    forall e :: e in es ==> InMemory(e)
  }

  /** From any kept prefix on: the rest reads back as written exactly when every entry is kept. */
  lemma {:induction false} RestReadsBack(o: Options, lim: Limits, es: seq<Entry>, k: nat, tail: seq<byte>)
    requires k <= |es| && KeptBelow(o, lim, es, k) && Writable(es) && (o.fakeSuper ==> o.xattrs)
    requires W.EncodeEntries(o, WriterAt(o, es, k), es[k..]).Ok?
    ensures var bytes := W.EncodeEntries(o, WriterAt(o, es, k), es[k..]).value;
            var d := R.DecodeEntries(o, lim, ReaderAt(o, es, k), bytes + (W.END + tail));
            && (KeptBelow(o, lim, es, |es|) ==> d == Ok((Renamed(es), tail)))
            && (!KeptBelow(o, lim, es, |es|) ==> !Yields(d, es))
    decreases |es| - k
  {
    hide W.EncodeEntry, W.RecordAll, WriterAt, ReaderAt, Kept, R.DecodeEntry, DecodeVarint, R.Push, W.Record;
    if k == |es| {
      ReaderEntries(o, es, k);
      EndReads(o, lim, ReaderAt(o, es, k), tail);
      assert Renamed(es)[..k] == Renamed(es);
      Nothing(W.END + tail);
    } else {
      var w, r := WriterAt(o, es, k), ReaderAt(o, es, k);
      WriterStep(o, es, k);
      assert es[k..][0] == es[k] && es[k..][1..] == es[k + 1..];
      var first := W.EncodeEntry(o, w, es[k]).value;
      var more := W.EncodeEntries(o, WriterAt(o, es, k + 1), es[k + 1..]).value;
      Append3(first, more, W.END + tail);
      var rest := more + (W.END + tail);
      OneEntry(o, lim, es, k, rest);
      if Kept(o, lim, es, k) {
        ReaderStep(o, es, k);
        RestReadsBack(o, lim, es, k + 1, tail);
      }
    }
  }

  lemma ReaderStep(o: Options, es: seq<Entry>, k: nat)
    requires k < |es|
    ensures ReaderAt(o, es, k + 1) == R.Push(o, ReaderAt(o, es, k), Renamed(es)[k])
  {
  }

  /** One more entry: kept, the reader moves on in step; not kept, it can no longer return the list. */
  lemma OneEntry(o: Options, lim: Limits, es: seq<Entry>, k: nat, rest: seq<byte>)
    requires k < |es| && KeptBelow(o, lim, es, k) && Writable(es) && (o.fakeSuper ==> o.xattrs)
    requires W.EncodeEntry(o, WriterAt(o, es, k), es[k]).Ok?
    ensures var r := ReaderAt(o, es, k);
            var d := R.DecodeEntries(o, lim, r, W.EncodeEntry(o, WriterAt(o, es, k), es[k]).value + rest);
            && (Kept(o, lim, es, k) ==> d == R.DecodeEntries(o, lim, R.Push(o, r, Renamed(es)[k]), rest))
            && (!Kept(o, lim, es, k) ==> !Yields(d, es))
  {
    hide WriterAt, ReaderAt, ValidWirePath, ToWirePath, R.DecodeEntry, R.DecodePayload, W.EncodePayload, DecodeVarint;
    hide Received, R.Push, KeptFresh, Agrees, KeptBelow;
    var w, r, e := WriterAt(o, es, k), ReaderAt(o, es, k), es[k];
    InStep(o, lim, es, k);
    ReaderEntries(o, es, k);
    GroupTable(o, es, k);
    EntryReadsBack(o, lim, w, r, e, rest);
    var (word, s) := DecodeVarint(W.EncodeEntry(o, w, e).value + rest).value;
    if k < lim.maxEntries && |e.path| <= lim.maxPathLen && ValidWirePath(ToWirePath(e.path)) {
      var d := R.DecodeEntry(o, lim, r, word, s);
      if IsReference(es, k) || FileTypeFromMode(e.mode) == Ok(e.fileType) {
        var xs := if o.xattrs then e.meta.xattrs else [];
        ChecksumSent(o, w, e);
        PayloadReadsBack(o, e, rest);
        ReceivedIsKept(o, lim, es, k);
        assert d == Ok((Received(o, w, r, e, xs), rest));
        if !Kept(o, lim, es, k) {
          WrongEntry(o, lim, es, k, d.value.0, rest);
        }
      } else {
        TypeDisagrees(o, lim, es, k);
        if d.Ok? {
          WrongEntry(o, lim, es, k, d.value.0, d.value.1);
        }
      }
    }
  }

  lemma ChecksumSent(o: Options, w: W.State, e: Entry)
    requires W.EncodeEntry(o, w, e).Ok?
    ensures W.EncodePayload(o, e).Ok?
    ensures W.When(o.includeChecksums && e.fileType.File?,
                   match e.checksum case Some(c) => Ok(c) case None => Err(MissingChecksum)).Ok?
                     || W.Reference(w, e).Some?
  {
    hide W.EncodePath, W.EncodeTimes, W.EncodePayload, W.EncodeIds, W.EncodeTime;
  }

  lemma TypeDisagrees(o: Options, lim: Limits, es: seq<Entry>, k: nat)
    requires k < |es| && !IsReference(es, k) && FileTypeFromMode(es[k].mode) != Ok(es[k].fileType)
    ensures !Kept(o, lim, es, k)
  {
  }

  lemma IdListsRead(o: Options, tail: seq<byte>)
    ensures R.DecodeIdLists(o, W.EncodeIdLists(o) + tail) == Ok(((), tail))
  {
    var one := if !o.numericIds && (o.preserveOwner || o.acls) then W.ROOT_ID else [];
    var two := if !o.numericIds && (o.preserveGroup || o.acls) then W.ROOT_ID else [];
    Append3(one, two, tail);
    RootReads(two + tail);
    RootReads(tail);
    Nothing(tail);
    Nothing(two + tail);
  }

  lemma RootReads(rest: seq<byte>)
    ensures R.DecodeIdList(W.ROOT_ID + rest) == Ok(((), rest))
  {
    hide DecodeVarint;
    var name := W.ROOT_ID[1..];
    ZeroVarint();
    VarintRoundTrip(0, name + rest);
    assert W.ROOT_ID + rest == [0] + (name + rest);
    assert (name + rest)[1..] == name[1..] + rest;
    TakeAppended(name[1..], rest);
  }

  /**
   * The round trip, exactly: for any option set and any list the writer accepts, the reader returns the
   * same entries (hard-link groups renamed) and leaves what followed them, trailing id lists consumed,
   * if and only if the list is faithful.
   */
  lemma {:induction false} RoundTripsExactly(o: Options, lim: Limits, es: seq<Entry>, tail: seq<byte>)
    requires W.EncodeList(o, es).Ok? && Writable(es)
    ensures R.DecodeList(o, lim, W.EncodeList(o, es).value + tail) == Ok((Renamed(es), tail))
       <==> Faithful(o, lim, es)
  {
    hide W.EncodeEntries, R.DecodeEntries, W.EncodeIdLists, R.DecodeIdLists, Kept;
    var bytes := W.EncodeEntries(o, W.INITIAL, es).value;
    var ids := W.EncodeIdLists(o);
    IdListsRead(o, tail);
    Append3(bytes, W.EncodeFinish(o), tail);
    Append3(W.END, ids, tail);
    assert es[..0] == [] && es[0..] == es;
    assert WriterAt(o, es, 0) == W.INITIAL;
    if o.fakeSuper && !o.xattrs {
      if es == [] {
        EmptyList(o, lim, ids + tail);
        assert bytes + (W.END + (ids + tail)) == W.END + (ids + tail) by { NoEntries(o); }
      } else {
        MissingXattrs(o, lim, es, tail);
        var d := R.DecodeEntries(o, lim, R.INITIAL, bytes + (W.END + (ids + tail)));
        if Yields(d, es) {
          NoIdLists(o, d.value.1);
        }
      }
    } else {
      RestReadsBack(o, lim, es, 0, ids + tail);
    }
  }

  // Every entry opens with a flag word that is not the end marker.
  lemma FirstWord(o: Options, w: W.State, e: Entry, rest: seq<byte>)
    requires W.EncodeEntry(o, w, e).Ok?
    ensures DecodeVarint(W.EncodeEntry(o, w, e).value + rest).Ok?
    ensures DecodeVarint(W.EncodeEntry(o, w, e).value + rest).value.0 != 0
  {
    hide DecodeVarint, EncodeVarint, W.EncodeBody, W.EncodePayload, W.Word;
    var f := W.EntryFlags(o, w, e);
    var path := ToWirePath(e.path);
    var n := CommonPrefixLen(w.path, path);
    var head, body, payload :=
      W.EncodePath(f, n, path[n..]).value, W.EncodeBody(o, w, e).value, W.EncodePayload(o, e).value;
    Append4(head, body, payload, rest);
    PathReadsBack(f, Limits(0, 0), w.path, path, body + (payload + rest));
    W.FlagBits(f);
  }

  lemma NoIdLists(o: Options, s: seq<byte>)
    requires W.EncodeIdLists(o) == []
    ensures R.DecodeIdLists(o, s) == Ok(((), s))
  {
  }

  /** A reader that expects xattrs the writer did not send misreads every list but the empty one. */
  lemma MissingXattrs(o: Options, lim: Limits, es: seq<Entry>, tail: seq<byte>)
    requires o.fakeSuper && !o.xattrs && es != [] && Writable(es) && W.EncodeEntries(o, W.INITIAL, es).Ok?
    ensures var bytes := W.EncodeEntries(o, W.INITIAL, es).value + (W.END + (W.EncodeIdLists(o) + tail));
            var d := R.DecodeEntries(o, lim, R.INITIAL, bytes);
            Yields(d, es) ==> W.EncodeIdLists(o) == [] && |d.value.1| < |tail|
  {
    hide W.EncodeEntry, W.EncodeIdLists, R.DecodeEntry, R.DecodePayload, R.DecodeXattrPayload, DecodeVarint, W.Record,
      R.Push;
    hide Received, ToWirePath, ValidWirePath, FileTypeFromMode;
    var e, ids := es[0], W.EncodeIdLists(o);
    var first := W.EncodeEntry(o, W.INITIAL, e).value;
    var more := W.EncodeEntries(o, W.Record(o, W.INITIAL, e), es[1..]).value;
    var rest := more + (W.END + (ids + tail));
    Append3(first, more, W.END + (ids + tail));
    EntryReadsBack(o, lim, W.INITIAL, R.INITIAL, e, rest);
    var (word, s) := DecodeVarint(first + rest).value;
    var d := R.DecodeEntry(o, lim, R.INITIAL, word, s);
    if d.Ok? {
      if d.value.0 != Renamed(es)[0] {
        WrongEntry(o, lim, es, 0, d.value.0, d.value.1);
      } else {
        ChecksumSent(o, W.INITIAL, e);
        AclsThen(o, e, rest);
        Nothing(rest);
        XattrsFromNowhere(o, es, rest, tail);
        EndOfIds(o, lim, R.Push(o, R.INITIAL, d.value.0), tail);
      }
    }
  }

  // What stands where the xattrs should be: the next entry, or the end of the list.
  lemma XattrsFromNowhere(o: Options, es: seq<Entry>, rest: seq<byte>, tail: seq<byte>)
    requires es != [] && W.EncodeEntries(o, W.INITIAL, es).Ok?
    requires rest
             == W.EncodeEntries(o, W.Record(o, W.INITIAL, es[0]), es[1..]).value + (W.END + (W.EncodeIdLists(o) + tail))
    ensures R.DecodeXattrPayload(rest).Ok? ==> R.DecodeXattrPayload(rest) == Ok(([], W.EncodeIdLists(o) + tail))
  {
    hide W.EncodeEntry, W.EncodeIdLists, W.Record;
    var st, es', after := W.Record(o, W.INITIAL, es[0]), es[1..], W.END + (W.EncodeIdLists(o) + tail);
    if es' == [] {
      Nothing(after);
      assert after[1..][1..] == W.EncodeIdLists(o) + tail;
    } else {
      hide DecodeVarint;
      var first := W.EncodeEntry(o, st, es'[0]).value;
      var more := W.EncodeEntries(o, W.Record(o, st, es'[0]), es'[1..]).value;
      Append3(first, more, after);
      FirstWord(o, st, es'[0], more + after);
    }
  }

  lemma EndOfIds(o: Options, lim: Limits, r: R.State, tail: seq<byte>)
    ensures var ids := W.EncodeIdLists(o);
            var d := R.DecodeEntries(o, lim, r, ids + tail);
            d.Ok? ==> ids == [] && |d.value.1| < |tail|
  {
    hide W.EncodeIdLists, R.DecodeEntry;
    IdListsRead(o, tail);
    var ids := W.EncodeIdLists(o);
    DecodeExtends(o, lim, r, ids + tail);
    if ids != [] {
      assert (ids + tail)[1..][0] == 4;
    } else {
      Nothing(tail);
    }
  }

  function Joined(batches: seq<seq<Entry>>): seq<Entry> {
    if batches == [] then [] else batches[0] + Joined(batches[1..])
  }

  /** What one writer sends when it is given the batches one after another. */
  function EncodeBatches(o: Options, st: W.State, batches: seq<seq<Entry>>): Result<seq<byte>>
    decreases |batches|
  {
    if batches == [] then Ok([])
    else
      var first :- W.EncodeEntries(o, st, batches[0]);
      var more :- EncodeBatches(o, W.RecordAll(o, st, batches[0]), batches[1..]);
      Ok(first + more)
  }

  /** However many batches a list is cut into, and wherever, the bytes or the error are those of one batch. */
  lemma {:induction false} BatchesAreOne(o: Options, st: W.State, batches: seq<seq<Entry>>)
    ensures EncodeBatches(o, st, batches) == W.EncodeEntries(o, st, Joined(batches))
    decreases |batches|
  {
    hide W.EncodeEntry, W.Record, W.RecordAll;
    if batches != [] {
      W.SplitIndependence(o, st, batches[0], Joined(batches[1..]));
      BatchesAreOne(o, W.RecordAll(o, st, batches[0]), batches[1..]);
    }
  }

  lemma GroupsSurvive(es: seq<Entry>, i: nat, j: nat)
    requires i < |es| && j < |es| && W.InGroup(es[i]) && W.InGroup(es[j])
    ensures Renamed(es)[i].hardLink == Renamed(es)[j].hardLink <==> es[i].hardLink == es[j].hardLink
    ensures Renamed(es)[i].hardLink.value.inode <= i
  {
    assert FirstIn(es, es[i].hardLink.value) <= i;
  }

  /**
   * Written in batches and read back, two linked files share a group exactly when they did before, even
   * across batches, and an entry without a group stays without one.
   */
  lemma HardLinkPartition(o: Options, lim: Limits, batches: seq<seq<Entry>>, tail: seq<byte>, i: nat, j: nat)
    requires EncodeBatches(o, W.INITIAL, batches).Ok? && Writable(Joined(batches)) && Faithful(o, lim, Joined(batches))
    requires i < |Joined(batches)| && j < |Joined(batches)|
    ensures var es := Joined(batches);
            var d := R.DecodeList(o, lim, EncodeBatches(o, W.INITIAL, batches).value + W.EncodeFinish(o) + tail);
            && d.Ok? && |d.value.0| == |es|
            && (d.value.0[i].hardLink.Some? <==> es[i].hardLink.Some?)
            && (es[i].hardLink.Some? && es[j].hardLink.Some? ==>
                  (d.value.0[i].hardLink == d.value.0[j].hardLink <==> es[i].hardLink == es[j].hardLink))
  {
    hide EncodeBatches, W.EncodeEntries, W.EncodeFinish, R.DecodeList, Kept;
    var es := Joined(batches);
    BatchesAreOne(o, W.INITIAL, batches);
    RoundTripsExactly(o, lim, es, tail);
    LinkedAreFiles(o, lim, es, i);
    LinkedAreFiles(o, lim, es, j);
    if es[i].hardLink.Some? && es[j].hardLink.Some? {
      GroupsSurvive(es, i, j);
    }
  }

  lemma LinkedAreFiles(o: Options, lim: Limits, es: seq<Entry>, k: nat)
    requires Faithful(o, lim, es) && k < |es|
    ensures es[k].hardLink.Some? ==> W.InGroup(es[k])
  {
    KeptFields(o, lim, es, k);
  }

  lemma NoEntries(o: Options)
    ensures W.EncodeEntries(o, W.INITIAL, []) == Ok([])
  {
  }

  lemma EmptyList(o: Options, lim: Limits, tail: seq<byte>)
    ensures R.DecodeEntries(o, lim, R.INITIAL, W.END + tail) == Ok(([], tail))
  {
    EndReads(o, lim, R.INITIAL, tail);
  }

  /** Equal in everything a hard link shares. */
  predicate SameFile(a: Entry, b: Entry) {
    a == b.(path := a.path, hardLink := a.hardLink, meta := b.meta.(xattrs := a.meta.xattrs))
  }

  /** What holds of entry `k` of any accepted list, whatever bytes it was read from. */
  predicate SafeEntry(lim: Limits, es: seq<Entry>, k: nat)
    requires k < |es|
  {
    var e := es[k];
    && k < lim.maxEntries && |e.path| <= lim.maxPathLen
    && BACKSLASH !in e.path && ValidWirePath(e.path)
    && FileTypeFromMode(e.mode) == Ok(e.fileType)
    && match e.hardLink
       case None => true
       case Some(g) => g.device == 0 && g.inode <= k && SameFile(e, es[g.inode])
  }

  predicate Safe(lim: Limits, es: seq<Entry>) {
    forall k :: 0 <= k < |es| ==> SafeEntry(lim, es, k)
  }

  lemma EntryIsSafe(o: Options, lim: Limits, st: R.State, flags: u32, s: seq<byte>)
    requires Safe(lim, st.entries) && |st.entries| < lim.maxEntries && R.DecodeEntry(o, lim, st, flags, s).Ok?
    ensures Safe(lim, st.entries + [R.DecodeEntry(o, lim, st, flags, s).value.0])
  {
    hide R.DecodePath, R.DecodeTimes, R.DecodeOwners, R.DecodePayload, DecodeVarint, ValidWirePath, FileTypeFromMode,
      W.Has;
    var e := R.DecodeEntry(o, lim, st, flags, s).value.0;
    var es := st.entries + [e];
    var path := R.DecodePath(lim, st.path, flags, s).value;
    if W.Has(flags, W.HLINKED) && !W.Has(flags, W.HLINK_FIRST) {
      var first := DecodeVarint(path.1).value.0;
      assert SafeEntry(lim, st.entries, first);
      assert es[first] == st.entries[first];
    }
    forall k | 0 <= k < |es| ensures SafeEntry(lim, es, k) {
      if k < |st.entries| {
        assert SafeEntry(lim, st.entries, k);
      }
    }
  }

  lemma {:induction false} EntriesAreSafe(o: Options, lim: Limits, st: R.State, s: seq<byte>)
    requires Safe(lim, st.entries) && R.DecodeEntries(o, lim, st, s).Ok?
    ensures Safe(lim, R.DecodeEntries(o, lim, st, s).value.0)
    decreases |s|
  {
    hide DecodeVarint, R.DecodeEntry, Safe;
    var (flags, s1) := DecodeVarint(s).value;
    if flags != 0 {
      var (e, s2) := R.DecodeEntry(o, lim, st, flags, s1).value;
      EntryIsSafe(o, lim, st, flags, s1);
      EntriesAreSafe(o, lim, R.Push(o, st, e), s2);
    }
  }

  /** Any bytes at all: a list the reader accepts holds only safe entries, each link to an equal earlier file. */
  lemma DecodedListsAreSafe(o: Options, lim: Limits, s: seq<byte>)
    requires R.DecodeList(o, lim, s).Ok?
    ensures Safe(lim, R.DecodeList(o, lim, s).value.0)
  {
    EntriesAreSafe(o, lim, R.INITIAL, s);
  }
}
