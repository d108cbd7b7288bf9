/** The smallest lists that the protocol-31 wire does not carry, each accepted by the writer. */
module FileListExamples {
  import opened Wire
  import opened Varint
  import opened FileEntry
  import opened FileListRoundTrip
  import opened FileListExact
  import opened FileListTheorem
  import W = FileListWriter
  import R = FileListReader

  const OWNERS := Options(false, true, false, false, false, false, false, false, false)

  const LIMITS := Limits(8, 64)

  const REGULAR: u32 := 0x81a4

  /** A one-letter file of user 1, with or without that user's name, alone or in a group. */
  function Small(letter: byte, len: u64, name: Option<seq<byte>>, group: Option<HardLinkGroup>): Entry {
    Entry([letter], File, len, 0, REGULAR, None, group, Metadata(Some(1), None, name, None, None, None, []))
  }

  lemma PathIsSent(st: W.State, e: Entry)
    requires |e.path| == 1
    ensures var path := ToWirePath(e.path);
            var n := CommonPrefixLen(st.path, path);
            W.EncodePath(W.EntryFlags(OWNERS, st, e), n, path[n..]).Ok?
  {
    hide EncodeVarint, W.Word, ToWirePath, CommonPrefixLen, W.Reference;
    var f := W.EntryFlags(OWNERS, st, e);
    W.WordFits(f);
    VarintRoundTrip(W.Word(f), []);
  }

  lemma FieldsAreSent(f: W.Flags, e: Entry)
    requires e.len < 0x100_0000 && e.mtime == 0 && e.meta.uid == Some(1) && e.meta.gid.None?
    requires e.meta.userName.Some? ==> |e.meta.userName.value| <= 255
    ensures W.EncodeFields(OWNERS, f, e).Ok?
  {
    hide EncodeVarint, EncodeVarlong;
    VarintRoundTrip(0, []);
    VarintRoundTrip(1, []);
    VarlongRoundTripsExactly(e.len, 3, []);
    VarlongRoundTripsExactly(0, 4, []);
    assert W.EncodeTimes(OWNERS, f, e).Ok?;
    assert W.EncodeOwners(OWNERS, f, e).Ok?;
  }

  lemma SmallIsSent(st: W.State, letter: byte, len: u64, name: Option<seq<byte>>, group: Option<HardLinkGroup>)
    requires len < 0x100_0000 && (name.Some? ==> |name.value| <= 255)
    requires forall g :: g in st.groups ==> st.groups[g] <= 8
    ensures W.EncodeEntry(OWNERS, st, Small(letter, len, name, group)).Ok?
  {
    hide EncodeVarint, W.EncodePath, W.EncodeFields, W.EntryFlags, ToWirePath, CommonPrefixLen;
    var e := Small(letter, len, name, group);
    PathIsSent(st, e);
    FieldsAreSent(W.EntryFlags(OWNERS, st, e), e);
    if W.Reference(st, e).Some? {
      VarintRoundTrip(W.Reference(st, e).value, []);
    }
  }

  lemma PairIsSent(a: Entry, b: Entry)
    requires W.EncodeEntry(OWNERS, W.INITIAL, a).Ok? && W.EncodeEntry(OWNERS, W.Record(OWNERS, W.INITIAL, a), b).Ok?
    ensures W.EncodeList(OWNERS, [a, b]).Ok?
  {
    hide W.EncodeEntry, W.Record;
    var st := W.Record(OWNERS, W.INITIAL, a);
    assert [b][1..] == [] && [a, b][1..] == [b];
    assert W.EncodeEntries(OWNERS, W.Record(OWNERS, st, b), []).Ok?;
    assert W.EncodeEntries(OWNERS, st, [b]).Ok?;
    assert W.EncodeEntries(OWNERS, W.INITIAL, [a, b]).Ok?;
  }

  /** Two files of one user, the second without the name: the reader gives it the first one's name. */
  lemma StaleNames(tail: seq<byte>)
    ensures var es := [Small(0x61, 0, Some([0x78]), None), Small(0x62, 0, None, None)];
            && W.EncodeList(OWNERS, es).Ok?
            && R.DecodeList(OWNERS, LIMITS, W.EncodeList(OWNERS, es).value + tail) != Ok((Renamed(es), tail))
  {
    hide W.EncodeEntry, W.EncodeList, R.DecodeList, ValidWirePath, FileTypeFromMode;
    var a, b := Small(0x61, 0, Some([0x78]), None), Small(0x62, 0, None, None);
    var es := [a, b];
    SmallIsSent(W.INITIAL, 0x61, 0, Some([0x78]), None);
    SmallIsSent(W.Record(OWNERS, W.INITIAL, a), 0x62, 0, None, None);
    PairIsSent(a, b);
    assert es[..1] == [a] && RepeatsUser(es, 1);
    assert !Kept(OWNERS, LIMITS, es, 1);
    RoundTripsExactly(OWNERS, LIMITS, es, tail);
  }

  /** Two links to one file that disagree on its length: the second is read back with the first one's. */
  lemma DisagreeingLinks(tail: seq<byte>)
    ensures var group := Some(HardLinkGroup(1, 1));
            var es := [Small(0x61, 0, None, group), Small(0x62, 1, None, group)];
            && W.EncodeList(OWNERS, es).Ok?
            && R.DecodeList(OWNERS, LIMITS, W.EncodeList(OWNERS, es).value + tail) != Ok((Renamed(es), tail))
  {
    hide W.EncodeEntry, W.EncodeList, R.DecodeList, ValidWirePath, FileTypeFromMode;
    var group := Some(HardLinkGroup(1, 1));
    var a, b := Small(0x61, 0, None, group), Small(0x62, 1, None, group);
    var es := [a, b];
    SmallIsSent(W.INITIAL, 0x61, 0, None, group);
    SmallIsSent(W.Record(OWNERS, W.INITIAL, a), 0x62, 1, None, group);
    PairIsSent(a, b);
    assert FirstIn(es, group.value) == 0 && IsReference(es, 1);
    assert !Kept(OWNERS, LIMITS, es, 1);
    RoundTripsExactly(OWNERS, LIMITS, es, tail);
  }
}
