/** The protocol-27 file list: the codec and exactly which lists it carries. */
module FileList27 {
  import opened Wire
  import opened FileEntry
  import opened Lengths

  const TOP_DIR: nat := 0x01
  const SAME_MODE: nat := 0x02
  const SAME_NAME: nat := 0x20
  const LONG_NAME: nat := 0x40
  const SAME_TIME: nat := 0x80

  predicate Has(status: byte, bit: nat)
    requires bit > 0
  {
    var v: int := status;
    v / bit % 2 == 1
  }

  /** What either end remembers of the entry before. */
  datatype State = State(mode: Option<u32>, mtime: Option<i64>)

  const INITIAL := State(None, None)

  function Recorded(e: Entry): State {
    State(Some(e.mode), Some(e.mtime))
  }

  // The writer.

  predicate IsTopDir(e: Entry) {
    e.fileType.Directory? && e.path == TOP_DIR_PATH
  }

  function Status(st: State, e: Entry): (b: byte)
    ensures b != 0 && Has(b, LONG_NAME) && !Has(b, SAME_NAME)
    ensures (Has(b, SAME_MODE) <==> st.mode == Some(e.mode)) && (Has(b, SAME_TIME) <==> st.mtime == Some(e.mtime))
    ensures Has(b, TOP_DIR) <==> IsTopDir(e)
  {
    LONG_NAME + (if st.mode == Some(e.mode) then SAME_MODE else 0)
      + (if st.mtime == Some(e.mtime) then SAME_TIME else 0)
    + if IsTopDir(e) then TOP_DIR else 0
  }

  function EncodeTime(st: State, e: Entry): Result<seq<byte>> {
    if st.mtime == Some(e.mtime) then Ok([])
    else if !(-0x8000_0000 <= e.mtime <= I32_MAX) then Err(InvalidInput)
    else Ok(Le(Unsigned32(e.mtime), 4))
  }

  function EncodeMode(st: State, e: Entry): seq<byte> {
    if st.mode == Some(e.mode) then [] else Le(e.mode, 4)
  }

  function EncodeChecksum(checksums: bool, e: Entry): Result<seq<byte>> {
    if !(checksums && e.fileType.File?) then Ok([])
    else if e.checksum.None? then Err(MissingChecksum)
    else Ok(e.checksum.value)
  }

  function EncodePath(st: State, e: Entry): Result<seq<byte>> {
    var path := ToWirePath(e.path);
    if |path| > I32_MAX then Err(PathTooLong) else Ok([Status(st, e)] + Le(|path|, 4) + path)
  }

  function EncodeEntry(checksums: bool, st: State, e: Entry): Result<seq<byte>> {
    var path :- EncodePath(st, e);
    var len :- EncodeLong(e.len);
    var time :- EncodeTime(st, e);
    var sum :- EncodeChecksum(checksums, e);
    Ok(path + (len + (time + (EncodeMode(st, e) + sum))))
  }

  function EncodeEntries(checksums: bool, st: State, es: seq<Entry>): Result<seq<byte>>
    decreases |es|
  {
    if es == [] then Ok([])
    else
      var first :- EncodeEntry(checksums, st, es[0]);
      var more :- EncodeEntries(checksums, Recorded(es[0]), es[1..]);
      Ok(first + more)
  }

  /** Writing `es` broke off at entry `k`: all before it is out and remembered, and of it perhaps some bytes. */
  ghost predicate BreaksOff(checksums: bool, st: State, es: seq<Entry>, k: nat, e: Error, before: seq<byte>,
                            after: seq<byte>, left: State)
  {
    && k < |es| && EncodeEntries(checksums, st, es[..k]).Ok?
    && EncodeEntry(checksums, StateAfter(st, es[..k]), es[k]) == Err(e)
    && before + EncodeEntries(checksums, st, es[..k]).value <= after
    && left == StateAfter(st, es[..k])
  }

  function StateAfter(st: State, es: seq<Entry>): State {
    if es == [] then st else Recorded(es[|es| - 1])
  }

  function EncodeList(checksums: bool, es: seq<Entry>): Result<seq<byte>> {
    var b :- EncodeEntries(checksums, INITIAL, es);
    Ok(b + [0])
  }

  /** However the entries are split into batches, the bytes are those of one batch. */
  lemma {:induction false} SplitIndependence(checksums: bool, st: State, a: seq<Entry>, b: seq<Entry>)
    ensures EncodeEntries(checksums, st, a + b) ==
            match EncodeEntries(checksums, st, a)
            case Err(e) => Err(e)
            case Ok(x) =>
              match EncodeEntries(checksums, StateAfter(st, a), b)
              case Err(e) => Err(e)
              case Ok(y) => Ok(x + y)
    decreases |a|
  {
    hide EncodeEntry;
    if a == [] {
      assert a + b == b;
      var y := EncodeEntries(checksums, st, b);
      if y.Ok? {
        assert [] + y.value == y.value;
      }
    } else {
      assert (a + b)[1..] == a[1..] + b;
      SplitIndependence(checksums, Recorded(a[0]), a[1..], b);
      var first := EncodeEntry(checksums, st, a[0]);
      var mid := EncodeEntries(checksums, Recorded(a[0]), a[1..]);
      var last := EncodeEntries(checksums, StateAfter(st, a), b);
      if first.Ok? && mid.Ok? && last.Ok? {
        assert first.value + (mid.value + last.value) == first.value + mid.value + last.value;
      }
    }
  }

  // The reader.

  function DecodePath(lim: Limits, last: seq<byte>, status: byte, s: seq<byte>): (p: Parsed<seq<byte>>)
    ensures p.Ok? ==> |p.value.1| <= |s|
  {
    var (inherited, s1) :- if Has(status, SAME_NAME) then ReadU8(s) else Ok((0, s));
    if inherited > |last| then Err(InvalidData)
    else
      var (suffixLen, s2) :- DecodeSuffixLen(status, s1);
      if inherited + suffixLen > lim.maxPathLen then Err(InvalidData)
      else
        var (suffix, s3) :- Take(s2, suffixLen);
        Ok((last[..inherited] + suffix, s3))
  }

  function DecodeSuffixLen(status: byte, s: seq<byte>): (p: Parsed<nat>)
    ensures p.Ok? ==> |p.value.1| <= |s|
  {
    if Has(status, LONG_NAME) then
      var (n, s1) :- ReadI32Le(s);
      if n < 0 then Err(InvalidData) else Ok((n, s1))
    else
      var (n, s1) :- ReadU8(s);
      Ok((n, s1))
  }

  function DecodeTime(st: State, status: byte, s: seq<byte>): (p: Parsed<i64>)
    ensures p.Ok? ==> |p.value.1| <= |s|
  {
    if Has(status, SAME_TIME) then
      match st.mtime
      case Some(t) => Ok((t, s))
      case None => Err(InvalidData)
    else
      var (t, s1) :- ReadI32Le(s);
      Ok((t, s1))
  }

  function DecodeMode(st: State, status: byte, s: seq<byte>): (p: Parsed<u32>)
    ensures p.Ok? ==> |p.value.1| <= |s|
  {
    if Has(status, SAME_MODE) then
      match st.mode
      case Some(m) => Ok((m, s))
      case None => Err(InvalidData)
    else ReadU32Le(s)
  }

  function DecodeChecksum(sent: bool, s: seq<byte>): (p: Parsed<Option<Checksum>>)
    ensures p.Ok? ==> |p.value.1| <= |s|
  {
    if !sent then Ok((None, s))
    else
      var (b, s1) :- Take(s, 16);
      Ok((Some(b), s1))
  }

  const NO_METADATA := Metadata(None, None, None, None, None, None, [])

  datatype Parts = Parts(path: seq<byte>, len: u64, mtime: i64, mode: u32)

  function DecodeParts(lim: Limits, last: seq<byte>, st: State, status: byte, s: seq<byte>): (p: Parsed<Parts>)
    ensures p.Ok? ==> |p.value.1| <= |s|
  {
    var (path, s1) :- DecodePath(lim, last, status, s);
    var (len, s2) :- DecodeLong(s1);
    var (mtime, s3) :- DecodeTime(st, status, s2);
    var (mode, s4) :- DecodeMode(st, status, s3);
    Ok((Parts(path, len, mtime, mode), s4))
  }

  /** An entry, its status byte read. */
  function DecodeEntry(checksums: bool, lim: Limits, last: seq<byte>, st: State, status: byte,
                       s: seq<byte>): (p: Parsed<Entry>)
    ensures p.Ok? ==> |p.value.1| <= |s|
  {
    var (parts, s1) :- DecodeParts(lim, last, st, status, s);
    var path :- WirePathFromBytes(parts.path);
    var fileType :- FileTypeFromMode(parts.mode);
    var (sum, s2) :- DecodeChecksum(checksums && fileType.File?, s1);
    Ok((Entry(path, fileType, parts.len, parts.mtime, parts.mode, sum, None, NO_METADATA), s2))
  }

  function DecodeEntries(checksums: bool, lim: Limits, es: seq<Entry>, last: seq<byte>, st: State,
                         s: seq<byte>): Parsed<seq<Entry>>
    decreases |s|
  {
    var (status, s1) :- ReadU8(s);
    if status == 0 then Ok((es, s1))
    else if |es| >= lim.maxEntries then Err(InvalidData)
    else
      var (e, s2) :- DecodeEntry(checksums, lim, last, st, status, s1);
      DecodeEntries(checksums, lim, es + [e], e.path, Recorded(e), s2)
  }

  function DecodeList(checksums: bool, lim: Limits, s: seq<byte>): Parsed<seq<Entry>> {
    DecodeEntries(checksums, lim, [], [], INITIAL, s)
  }

  // One entry there and back.

  /** What the wire carries of an entry, and the reader will take. */
  predicate Carried(checksums: bool, lim: Limits, e: Entry) {
    && |e.path| <= lim.maxPathLen && BACKSLASH !in e.path && ValidWirePath(e.path)
    && FileTypeFromMode(e.mode) == Ok(e.fileType)
    && (e.checksum.Some? <==> checksums && e.fileType.File?)
    && e.hardLink.None? && e.meta == NO_METADATA
  }

  lemma PathReads(lim: Limits, last: seq<byte>, st: State, e: Entry, rest: seq<byte>)
    requires EncodePath(st, e).Ok?
    ensures var path := ToWirePath(e.path);
            var s := EncodePath(st, e).value + rest;
            && s != [] && s[0] == Status(st, e)
            && DecodePath(lim, last, s[0], s[1..]) == if |path| > lim.maxPathLen then Err(InvalidData)
               else Ok((path, rest))
  {
    hide Status, Has, ToWirePath, ReadI32Le;
    var path := ToWirePath(e.path);
    var s := EncodePath(st, e).value + rest;
    assert s[1..] == Le(|path|, 4) + (path + rest);
    LenReads(path, rest);
    TakeAppended(path, rest);
    assert last[..0] + path == path;
  }

  lemma LenReads(path: seq<byte>, rest: seq<byte>)
    requires |path| <= I32_MAX
    ensures ReadI32Le(Le(|path|, 4) + (path + rest)) == Ok((|path|, path + rest))
  {
    I32RoundTrip(|path|, path + rest);
  }

  lemma TimeReads(st: State, e: Entry, rest: seq<byte>)
    requires EncodeTime(st, e).Ok?
    ensures DecodeTime(st, Status(st, e), EncodeTime(st, e).value + rest) == Ok((e.mtime, rest))
  {
    hide Status, Has, ReadI32Le;
    if st.mtime == Some(e.mtime) {
      assert [] + rest == rest;
    } else {
      I32RoundTrip(e.mtime, rest);
    }
  }

  lemma ModeReads(st: State, e: Entry, rest: seq<byte>)
    ensures DecodeMode(st, Status(st, e), EncodeMode(st, e) + rest) == Ok((e.mode, rest))
  {
    hide Status, Has, ReadU32Le;
    if st.mode == Some(e.mode) {
      assert [] + rest == rest;
    } else {
      U32RoundTrip(e.mode, rest);
    }
  }

  lemma PartsRead(checksums: bool, lim: Limits, last: seq<byte>, st: State, e: Entry, rest: seq<byte>)
    requires EncodeEntry(checksums, st, e).Ok?
    ensures var path := ToWirePath(e.path);
            var sum := EncodeChecksum(checksums, e).value;
            var s := EncodeEntry(checksums, st, e).value + rest;
            && s != [] && s[0] == Status(st, e)
            && DecodeParts(lim, last, st, s[0], s[1..])
               == if |path| > lim.maxPathLen then Err(InvalidData)
                 else Ok((Parts(path, e.len, e.mtime, e.mode), sum + rest))
  {
    hide EncodePath, EncodeLong, EncodeTime, EncodeMode, EncodeChecksum, DecodePath, DecodeLong, DecodeTime,
      DecodeMode, ToWirePath, Status, Has;
    var path, len, time := EncodePath(st, e).value, EncodeLong(e.len).value, EncodeTime(st, e).value;
    var mode, sum := EncodeMode(st, e), EncodeChecksum(checksums, e).value;
    SixParts(path, len, time, mode, sum, rest);
    PathReads(lim, last, st, e, len + (time + (mode + (sum + rest))));
    LongRoundTrip(e.len, time + (mode + (sum + rest)));
    TimeReads(st, e, mode + (sum + rest));
    ModeReads(st, e, sum + rest);
  }

  lemma SixParts(a: seq<byte>, b: seq<byte>, c: seq<byte>, d: seq<byte>, e: seq<byte>, f: seq<byte>)
    ensures a + (b + (c + (d + e))) + f == a + (b + (c + (d + (e + f))))
  {
    assert d + e + f == d + (e + f);
    assert c + (d + e) + f == c + (d + e + f);
    assert b + (c + (d + e)) + f == b + (c + (d + e) + f);
    assert a + (b + (c + (d + e))) + f == a + (b + (c + (d + e)) + f);
  }

  /** An entry is read back as itself exactly when the wire carries all of it and the reader takes it. */
  lemma EntryReads(checksums: bool, lim: Limits, last: seq<byte>, st: State, e: Entry, rest: seq<byte>)
    requires EncodeEntry(checksums, st, e).Ok?
    ensures var s := EncodeEntry(checksums, st, e).value + rest;
            && s != [] && s[0] != 0
            && (Carried(checksums, lim, e) ==> DecodeEntry(checksums, lim, last, st, s[0], s[1..]) == Ok((e, rest)))
            && (!Carried(checksums, lim, e) ==>
                  var r := DecodeEntry(checksums, lim, last, st, s[0], s[1..]);
                  r.Err? || r.value.0 != e)
  {
    hide EncodePath, EncodeLong, EncodeTime, EncodeMode, DecodeParts, ToWirePath, Status, Has, ValidWirePath,
      FileTypeFromMode, EncodeEntry;
    PartsRead(checksums, lim, last, st, e, rest);
    SumSent(checksums, st, e);
    var sum := EncodeChecksum(checksums, e).value;
    if Carried(checksums, lim, e) {
      if checksums && e.fileType.File? {
        TakeAppended(sum, rest);
      } else {
        assert [] + rest == rest;
      }
    }
  }

  lemma SumSent(checksums: bool, st: State, e: Entry)
    requires EncodeEntry(checksums, st, e).Ok?
    ensures EncodeChecksum(checksums, e).Ok?
  {
  }

  predicate AllCarried(checksums: bool, lim: Limits, es: seq<Entry>) {
    |es| <= lim.maxEntries && forall i :: 0 <= i < |es| ==> Carried(checksums, lim, es[i])
  }

  // The reader only ever adds to what it has.
  lemma {:induction false} DecodeExtends(checksums: bool, lim: Limits, es: seq<Entry>, last: seq<byte>, st: State,
                                         s: seq<byte>)
    ensures var r := DecodeEntries(checksums, lim, es, last, st, s); r.Ok? ==> es <= r.value.0
    decreases |s|
  {
    hide DecodeEntry;
    var first := ReadU8(s);
    if first.Ok? && first.value.0 != 0 && |es| < lim.maxEntries {
      var e := DecodeEntry(checksums, lim, last, st, first.value.0, first.value.1);
      if e.Ok? {
        DecodeExtends(checksums, lim, es + [e.value.0], e.value.0.path, Recorded(e.value.0), e.value.1);
        assert es <= es + [e.value.0];
      }
    }
  }

  lemma {:induction false} EntriesRead(checksums: bool, lim: Limits, had: seq<Entry>, last: seq<byte>, st: State,
                                       es: seq<Entry>, tail: seq<byte>)
    requires EncodeEntries(checksums, st, es).Ok? && |had| <= lim.maxEntries
    ensures DecodeEntries(checksums, lim, had, last, st, EncodeEntries(checksums, st, es).value + ([0] + tail))
            == Ok((had + es, tail))
            <==> |had| + |es| <= lim.maxEntries && forall i :: 0 <= i < |es| ==> Carried(checksums, lim, es[i])
    decreases |es|
  {
    hide EncodeEntry, DecodeEntry, Carried;
    if es == [] {
      assert [] + ([0] + tail) == [0] + tail && ([0] + tail)[1..] == tail && had + es == had;
    } else {
      var e, rest := es[0], es[1..];
      var first := EncodeEntry(checksums, st, e).value;
      var more := EncodeEntries(checksums, Recorded(e), rest).value + ([0] + tail);
      assert first + EncodeEntries(checksums, Recorded(e), rest).value + ([0] + tail) == first + more;
      EntryReads(checksums, lim, last, st, e, more);
      if |had| < lim.maxEntries {
        OneMore(checksums, lim, had, last, st, es, tail, more);
      }
    }
  }

  lemma {:induction false} OneMore(checksums: bool, lim: Limits, had: seq<Entry>, last: seq<byte>, st: State,
                                   es: seq<Entry>, tail: seq<byte>, more: seq<byte>)
    requires es != [] && EncodeEntries(checksums, st, es).Ok? && |had| < lim.maxEntries
    requires more == EncodeEntries(checksums, Recorded(es[0]), es[1..]).value + ([0] + tail)
    ensures DecodeEntries(checksums, lim, had, last, st, EncodeEntry(checksums, st, es[0]).value + more)
            == Ok((had + es, tail))
            <==> |had| + |es| <= lim.maxEntries && forall i :: 0 <= i < |es| ==> Carried(checksums, lim, es[i])
    decreases |es|, 0
  {
    hide EncodeEntry, DecodeEntry, Carried;
    var e, rest := es[0], es[1..];
    var s := EncodeEntry(checksums, st, e).value + more;
    EntryReads(checksums, lim, last, st, e, more);
    assert had + es == had + [e] + rest;
    assert (forall i :: 0 <= i < |es| ==> Carried(checksums, lim, es[i])) <==>
           Carried(checksums, lim, e) && forall i :: 0 <= i < |rest| ==> Carried(checksums, lim, rest[i]) by {
      assert es == [e] + rest;
    }
    var got := DecodeEntry(checksums, lim, last, st, s[0], s[1..]);
    if Carried(checksums, lim, e) {
      EntriesRead(checksums, lim, had + [e], e.path, Recorded(e), rest, tail);
    } else if got.Ok? {
      var wrong := got.value.0;
      DecodeExtends(checksums, lim, had + [wrong], wrong.path, Recorded(wrong), got.value.1);
      assert (had + es)[|had|] == e && (had + [wrong])[|had|] == wrong;
    }
  }

  /** A list that could be written comes back, with nothing left over, exactly when the wire carries all of it. */
  lemma RoundTripsExactly(checksums: bool, lim: Limits, es: seq<Entry>, tail: seq<byte>)
    requires EncodeList(checksums, es).Ok?
    ensures DecodeList(checksums, lim, EncodeList(checksums, es).value + tail) == Ok((es, tail)) <==>
              AllCarried(checksums, lim, es)
  {
    hide EncodeEntries, DecodeEntries, Carried;
    var b := EncodeEntries(checksums, INITIAL, es).value;
    assert b + [0] + tail == b + ([0] + tail);
    EntriesRead(checksums, lim, [], [], INITIAL, es, tail);
    assert [] + es == es;
  }
}
