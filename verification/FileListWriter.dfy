/** The protocol-31 file-list writer: each entry is sent as its difference from the one before. */
module FileListWriter {
  import opened Wire
  import opened Varint
  import opened FileEntry

  const MAX_INLINE_XATTR_VALUE := 32

  datatype Flags = Flags(
    topDir: bool, sameMode: bool, extended: bool, sameUid: bool, sameGid: bool, sameName: bool,
    longName: bool, sameTime: bool, hlinked: bool, userNameFollows: bool, groupNameFollows: bool,
    hlinkFirst: bool, modNsec: bool, sameAtime: bool, crtimeEqMtime: bool)

  const NO_FLAGS := Flags(false, false, false, false, false, false, false, false,
                          false, false, false, false, false, false, false)

  const TOP_DIR: nat := 0x1
  const SAME_MODE: nat := 0x2
  const SAME_UID: nat := 0x8
  const SAME_GID: nat := 0x10
  const SAME_NAME: nat := 0x20
  const LONG_NAME: nat := 0x40
  const SAME_TIME: nat := 0x80
  const HLINKED: nat := 0x200
  const USER_NAME_FOLLOWS: nat := 0x400
  const GROUP_NAME_FOLLOWS: nat := 0x800
  const HLINK_FIRST: nat := 0x1000
  const MOD_NSEC: nat := 0x2000
  const SAME_ATIME: nat := 0x4000
  const CRTIME_EQ_MTIME: nat := 0x2_0000

  function B(b: bool): (n: nat)
    ensures n <= 1 && (n == 1 <==> b)
  {
    if b then 1 else 0
  }

  /** The flag word: each flag is one bit. */
  function Word(f: Flags): u32 {
    B(f.topDir) + 0x2 * B(f.sameMode) + 0x4 * B(f.extended) + 0x8 * B(f.sameUid) + 0x10 * B(f.sameGid)
    + 0x20 * B(f.sameName) + 0x40 * B(f.longName) + 0x80 * B(f.sameTime) + 0x200 * B(f.hlinked)
    + 0x400 * B(f.userNameFollows) + 0x800 * B(f.groupNameFollows) + 0x1000 * B(f.hlinkFirst)
    + 0x2000 * B(f.modNsec) + 0x4000 * B(f.sameAtime) + 0x2_0000 * B(f.crtimeEqMtime)
  }

  predicate Has(word: nat, bit: nat)
    requires bit > 0
  {
    word / bit % 2 == 1
  }

  /** `w` carries exactly the flags of `f`, as far as a reader can test. */
  predicate Carries(w: nat, f: Flags) {
    && Has(w, SAME_MODE) == f.sameMode && Has(w, SAME_UID) == f.sameUid && Has(w, SAME_GID) == f.sameGid
    && Has(w, SAME_NAME) == f.sameName && Has(w, LONG_NAME) == f.longName
    && Has(w, SAME_TIME) == f.sameTime && Has(w, HLINKED) == f.hlinked
    && Has(w, USER_NAME_FOLLOWS) == f.userNameFollows && Has(w, GROUP_NAME_FOLLOWS) == f.groupNameFollows
    && Has(w, HLINK_FIRST) == f.hlinkFirst && Has(w, MOD_NSEC) == f.modNsec
    && Has(w, SAME_ATIME) == f.sameAtime && Has(w, CRTIME_EQ_MTIME) == f.crtimeEqMtime
  }

  // One binary digit, above lower ones and below higher ones.
  lemma Digit(word: nat, low: nat, x: nat, high: nat, bit: nat)
    requires bit > 0 && low < bit && x <= 1 && word == low + bit * (x + 2 * high)
    ensures Has(word, bit) == (x == 1)
  {
    DivUnique(word, bit, x + 2 * high, low);
  }

  lemma LowDigits(w: nat, x0: nat, x1: nat, x2: nat, x3: nat, x4: nat, x5: nat, x6: nat, x7: nat, high: nat)
    requires x0 <= 1 && x1 <= 1 && x2 <= 1 && x3 <= 1 && x4 <= 1 && x5 <= 1 && x6 <= 1 && x7 <= 1
    requires w == x0 + 0x2 * x1 + 0x4 * x2 + 0x8 * x3 + 0x10 * x4 + 0x20 * x5 + 0x40 * x6 + 0x80 * x7 + 0x100 * high
    ensures Has(w, 0x2) == (x1 == 1) && Has(w, 0x8) == (x3 == 1) && Has(w, 0x10) == (x4 == 1)
    ensures Has(w, 0x20) == (x5 == 1) && Has(w, 0x40) == (x6 == 1) && Has(w, 0x80) == (x7 == 1)
  {
    hide Has;
    var low3 := x0 + 0x2 * x1 + 0x4 * x2;
    var low4 := low3 + 0x8 * x3;
    var low5 := low4 + 0x10 * x4;
    var low6 := low5 + 0x20 * x5;
    var low7 := low6 + 0x40 * x6;
    var high6 := x7 + 2 * high;
    var high5 := x6 + 2 * high6;
    var high4 := x5 + 2 * high5;
    var high3 := x4 + 2 * high4;
    Digit(w, x0, x1, 2 * (x3 + 2 * high3) + x2, 0x2);
    Digit(w, low3, x3, high3, 0x8);
    Digit(w, low4, x4, high4, 0x10);
    Digit(w, low5, x5, high5, 0x20);
    Digit(w, low6, x6, high6, 0x40);
    Digit(w, low7, x7, high, 0x80);
  }

  lemma HighDigits(w: nat, low9: nat, x9: nat, x10: nat, x11: nat, x12: nat, x13: nat, x14: nat, x17: nat)
    requires low9 < 0x200
    requires x9 <= 1 && x10 <= 1 && x11 <= 1 && x12 <= 1 && x13 <= 1 && x14 <= 1 && x17 <= 1
    requires w == low9 + 0x200 * x9 + 0x400 * x10 + 0x800 * x11 + 0x1000 * x12 + 0x2000 * x13 + 0x4000 * x14
                  + 0x2_0000 * x17
    ensures Has(w, 0x200) == (x9 == 1) && Has(w, 0x400) == (x10 == 1) && Has(w, 0x800) == (x11 == 1)
    ensures Has(w, 0x1000) == (x12 == 1) && Has(w, 0x2000) == (x13 == 1) && Has(w, 0x4000) == (x14 == 1)
    ensures Has(w, 0x2_0000) == (x17 == 1)
  {
    hide Has;
    var low10 := low9 + 0x200 * x9;
    var low11 := low10 + 0x400 * x10;
    var low12 := low11 + 0x800 * x11;
    var low13 := low12 + 0x1000 * x12;
    var low14 := low13 + 0x2000 * x13;
    var high14 := 0x4 * x17;
    var high13 := x14 + 2 * high14;
    var high12 := x13 + 2 * high13;
    var high11 := x12 + 2 * high12;
    var high10 := x11 + 2 * high11;
    Digit(w, low9, x9, x10 + 2 * high10, 0x200);
    Digit(w, low10, x10, high10, 0x400);
    Digit(w, low11, x11, high11, 0x800);
    Digit(w, low12, x12, high12, 0x1000);
    Digit(w, low13, x13, high13, 0x2000);
    Digit(w, low14, x14, high14, 0x4000);
    Digit(w, low14 + 0x4000 * x14, x17, 0, 0x2_0000);
  }

  lemma WordDigits(f: Flags) returns (w: nat)
    ensures w == Word(f)
    ensures Has(w, SAME_MODE) == (B(f.sameMode) == 1) && Has(w, SAME_UID) == (B(f.sameUid) == 1)
    ensures Has(w, SAME_GID) == (B(f.sameGid) == 1) && Has(w, SAME_NAME) == (B(f.sameName) == 1)
    ensures Has(w, LONG_NAME) == (B(f.longName) == 1) && Has(w, SAME_TIME) == (B(f.sameTime) == 1)
    ensures Has(w, HLINKED) == (B(f.hlinked) == 1)
    ensures Has(w, USER_NAME_FOLLOWS) == (B(f.userNameFollows) == 1)
    ensures Has(w, GROUP_NAME_FOLLOWS) == (B(f.groupNameFollows) == 1)
    ensures Has(w, HLINK_FIRST) == (B(f.hlinkFirst) == 1) && Has(w, MOD_NSEC) == (B(f.modNsec) == 1)
    ensures Has(w, SAME_ATIME) == (B(f.sameAtime) == 1) && Has(w, CRTIME_EQ_MTIME) == (B(f.crtimeEqMtime) == 1)
  {
    hide B, Has;
    w := Word(f);
    var x0, x1, x2, x3 := B(f.topDir), B(f.sameMode), B(f.extended), B(f.sameUid);
    var x4, x5, x6, x7 := B(f.sameGid), B(f.sameName), B(f.longName), B(f.sameTime);
    var x9, x10, x11, x12 := B(f.hlinked), B(f.userNameFollows), B(f.groupNameFollows), B(f.hlinkFirst);
    var x13, x14, x17 := B(f.modNsec), B(f.sameAtime), B(f.crtimeEqMtime);
    LowDigits(w, x0, x1, x2, x3, x4, x5, x6, x7,
              2 * x9 + 4 * x10 + 8 * x11 + 0x10 * x12 + 0x20 * x13 + 0x40 * x14 + 0x200 * x17);
    HighDigits(w, x0 + 2 * x1 + 4 * x2 + 8 * x3 + 0x10 * x4 + 0x20 * x5 + 0x40 * x6 + 0x80 * x7,
               x9, x10, x11, x12, x13, x14, x17);
  }

  // A flag word is always small enough to be sent.
  lemma WordFits(f: Flags)
    ensures Word(f) <= 0x3_ffff
  {
  }

  /** The reader's tests recover every flag the writer set. */
  lemma FlagBits(f: Flags)
    ensures Carries(Word(f), f)
    ensures f.modNsec ==> Word(f) != 0
  {
    hide Word, B;
    var w := WordDigits(f);
    assert Has(w, MOD_NSEC) ==> w != 0;
  }

  /** What the writer remembers between entries. */
  datatype State = State(
    path: seq<byte>, mode: Option<u32>, mtime: Option<i64>,
    uid: Option<u32>, gid: Option<u32>, atime: Option<i64>,
    groups: map<HardLinkGroup, nat>, nextIndex: nat)

  const INITIAL := State([], None, None, None, None, None, map[], 0)

  function Uid(e: Entry): u32 {
    e.meta.uid.GetOr(0)
  }

  function Gid(e: Entry): u32 {
    e.meta.gid.GetOr(0)
  }

  function Atime(e: Entry): i64 {
    e.meta.atime.GetOr(e.mtime)
  }

  function Crtime(e: Entry): i64 {
    e.meta.crtime.GetOr(e.mtime)
  }

  predicate InGroup(e: Entry) {
    e.fileType.File? && e.hardLink.Some?
  }

  /** The index of the first member of the entry's group, when that was already sent. */
  function Reference(st: State, e: Entry): Option<nat> {
    if InGroup(e) && e.hardLink.value in st.groups then Some(st.groups[e.hardLink.value]) else None
  }

  function EntryFlags(o: Options, st: State, e: Entry): Flags {
    var path := ToWirePath(e.path);
    var inherited := CommonPrefixLen(st.path, path);
    var sameUid := !o.preserveOwner || st.uid == Some(Uid(e));
    var sameGid := !o.preserveGroup || st.gid == Some(Gid(e));
    Flags(
      topDir := e.fileType.Directory? && e.path == TOP_DIR_PATH,
      sameMode := st.mode == Some(e.mode),
      extended := false,  // only for a word with no other flag, and modNsec is always set
      sameUid := sameUid,
      sameGid := sameGid,
      sameName := inherited > 0,
      longName := |path| - inherited > 255,
      sameTime := st.mtime == Some(e.mtime),
      hlinked := InGroup(e),
      userNameFollows := !sameUid && !o.numericIds && e.meta.userName.Some?,
      groupNameFollows := !sameGid && !o.numericIds && e.meta.groupName.Some?,
      hlinkFirst := InGroup(e) && Reference(st, e).None?,
      modNsec := true,
      sameAtime := o.atimes && !e.fileType.Directory? && st.atime == Some(Atime(e)),
      crtimeEqMtime := o.crtimes && Crtime(e) == e.mtime)
  }

  function When(sent: bool, r: Result<seq<byte>>): Result<seq<byte>> {
    if sent then r else Ok([])
  }

  /** A length or an index, refused beyond 32 bits. */
  function EncodeCount(n: nat, tooLarge: Error): Result<seq<byte>> {
    if n >= 0x1_0000_0000 then Err(tooLarge) else EncodeVarint(n)
  }

  function EncodeTime(t: i64): Result<seq<byte>> {
    if t < 0 then Err(InvalidInput) else EncodeVarlong(t, 4)
  }

  function EncodeName(name: seq<byte>): Result<seq<byte>> {
    if |name| > 255 then Err(InvalidInput) else Ok([|name|] + name)
  }

  function EncodeId(id: u32, name: Option<seq<byte>>): Result<seq<byte>> {
    var number :- EncodeVarint(id);
    var follows :- When(name.Some?, EncodeName(name.GetOr([])));
    Ok(number + follows)
  }

  function EncodePath(f: Flags, inherited: nat, suffix: seq<byte>): Result<seq<byte>>
    requires inherited <= 255 && (f.longName <==> |suffix| > 255)
  {
    var flags :- EncodeVarint(Word(f));
    var length :- if f.longName then EncodeCount(|suffix|, PathTooLong) else Ok([|suffix|]);
    Ok(flags + ((if f.sameName then [inherited] else []) + (length + suffix)))
  }

  /** The fields of an entry that is not a reference to an earlier one, up to its type's own. */
  function EncodeTimes(o: Options, f: Flags, e: Entry): Result<seq<byte>> {
    var len :- EncodeVarlong(e.len, 3);
    var mtime :- When(!f.sameTime, EncodeTime(e.mtime));
    var nsec :- When(f.modNsec, EncodeVarint(0));
    var mode := if f.sameMode then [] else Le(e.mode, 4);
    var crtime :- When(o.crtimes && !f.crtimeEqMtime, EncodeTime(Crtime(e)));
    Ok(len + (mtime + (nsec + (mode + crtime))))
  }

  function SentName(follows: bool, name: Option<seq<byte>>): Option<seq<byte>> {
    if follows then name else None
  }

  function EncodeIds(o: Options, f: Flags, e: Entry): Result<seq<byte>> {
    var user :- When(o.preserveOwner && !f.sameUid, EncodeId(Uid(e), SentName(f.userNameFollows, e.meta.userName)));
    var group :- When(o.preserveGroup && !f.sameGid, EncodeId(Gid(e), SentName(f.groupNameFollows, e.meta.groupName)));
    Ok(user + group)
  }

  function EncodeOwners(o: Options, f: Flags, e: Entry): Result<seq<byte>> {
    var atime :- When(o.atimes && !e.fileType.Directory? && !f.sameAtime, EncodeTime(Atime(e)));
    var ids :- EncodeIds(o, f, e);
    var checksum :- When(o.includeChecksums && e.fileType.File?,
                         match e.checksum case Some(c) => Ok(c) case None => Err(MissingChecksum));
    Ok(atime + (ids + checksum))
  }

  function EncodeFields(o: Options, f: Flags, e: Entry): Result<seq<byte>> {
    var times :- EncodeTimes(o, f, e);
    var owners :- EncodeOwners(o, f, e);
    Ok(times + owners)
  }

  const EMPTY_ACL: seq<byte> := [0, 0]

  function EncodeAcls(t: FileType): seq<byte> {
    if t.Directory? then EMPTY_ACL + EMPTY_ACL else EMPTY_ACL
  }

  function EncodeXattr(x: Xattr): Result<seq<byte>> {
    if x.name == [] || 0 in x.name then Err(InvalidXattrName)
    else if |x.value| > MAX_INLINE_XATTR_VALUE then Err(XattrValueTooLarge)
    else
      var nameLen :- EncodeVarint((|x.name| + 1) % 0x1_0000_0000);
      var valueLen :- EncodeVarint(|x.value|);
      Ok(nameLen + (valueLen + (x.name + ([0] + x.value))))
  }

  function EncodeXattrs(xs: seq<Xattr>): Result<seq<byte>> {
    if xs == [] then Ok([])
    else
      var first :- EncodeXattr(xs[0]);
      var more :- EncodeXattrs(xs[1..]);
      Ok(first + more)
  }

  function EncodeXattrPayload(xs: seq<Xattr>): Result<seq<byte>> {
    var index :- EncodeVarint(0);
    var count :- EncodeVarint(|xs| % 0x1_0000_0000);
    var items :- EncodeXattrs(xs);
    Ok(index + (count + items))
  }

  function EncodePayload(o: Options, e: Entry): Result<seq<byte>> {
    var xattrs :- When(o.xattrs, EncodeXattrPayload(e.meta.xattrs));
    Ok((if o.acls && !e.fileType.Symlink? then EncodeAcls(e.fileType) else []) + xattrs)
  }

  function Record(o: Options, st: State, e: Entry): State {
    State(
      path := ToWirePath(e.path),
      mode := Some(e.mode),
      mtime := Some(e.mtime),
      uid := if o.preserveOwner then Some(Uid(e)) else st.uid,
      gid := if o.preserveGroup then Some(Gid(e)) else st.gid,
      atime := if o.atimes && !e.fileType.Directory? then Some(Atime(e)) else st.atime,
      groups := if InGroup(e) && Reference(st, e).None? then st.groups[e.hardLink.value := st.nextIndex]
                else st.groups,
      nextIndex := st.nextIndex + 1)
  }

  function EncodeBody(o: Options, st: State, e: Entry): Result<seq<byte>> {
    match Reference(st, e)
    case Some(first) => EncodeCount(first, InvalidInput)
    case None => EncodeFields(o, EntryFlags(o, st, e), e)
  }

  /** One entry: flags and path, then a reference or the changed fields, then ACLs and xattrs. */
  function EncodeEntry(o: Options, st: State, e: Entry): Result<seq<byte>> {
    var path := ToWirePath(e.path);
    var inherited := CommonPrefixLen(st.path, path);
    var head :- EncodePath(EntryFlags(o, st, e), inherited, path[inherited..]);
    var body :- EncodeBody(o, st, e);
    var payload :- EncodePayload(o, e);
    Ok(head + (body + payload))
  }

  function EncodeEntries(o: Options, st: State, es: seq<Entry>): Result<seq<byte>>
    decreases es
  {
    if es == [] then Ok([])
    else
      var first :- EncodeEntry(o, st, es[0]);
      var more :- EncodeEntries(o, Record(o, st, es[0]), es[1..]);
      Ok(first + more)
  }

  /** What the writer remembers of an entry it could not write: its link group, and nothing else. */
  function Failed(st: State, e: Entry): State {
    if InGroup(e) && Reference(st, e).None? then st.(groups := st.groups[e.hardLink.value := st.nextIndex]) else st
  }

  /** Writing `es` broke off at entry `k`: all before it is out and remembered, and of it perhaps some bytes. */
  ghost predicate BreaksOff(o: Options, st: State, es: seq<Entry>, k: nat, e: Error, before: seq<byte>,
                            after: seq<byte>, left: State)
  {
    && k < |es| && EncodeEntries(o, st, es[..k]).Ok?
    && EncodeEntry(o, RecordAll(o, st, es[..k]), es[k]) == Err(e)
    && before + EncodeEntries(o, st, es[..k]).value <= after
    && left == Failed(RecordAll(o, st, es[..k]), es[k])
  }

  function RecordAll(o: Options, st: State, es: seq<Entry>): State
    decreases es
  {
    if es == [] then st else RecordAll(o, Record(o, st, es[0]), es[1..])
  }

  const ROOT_ID: seq<byte> := [0, 4, 0x72, 0x6f, 0x6f, 0x74]

  // The end marker and the I/O-error count.
  const END: seq<byte> := [0, 0]

  /** A terminated id list for each side that has one. */
  function EncodeIdLists(o: Options): (ids: seq<byte>)
    ensures ids == [] || (|ids| >= 2 && ids[0] == 0 && ids[1] == 4)
  {
    (if !o.numericIds && (o.preserveOwner || o.acls) then ROOT_ID else [])
    + (if !o.numericIds && (o.preserveGroup || o.acls) then ROOT_ID else [])
  }

  function EncodeFinish(o: Options): seq<byte> {
    END + EncodeIdLists(o)
  }

  function EncodeList(o: Options, es: seq<Entry>): Result<seq<byte>> {
    var entries :- EncodeEntries(o, INITIAL, es);
    Ok(entries + EncodeFinish(o))
  }

  /** Splitting a list into batches changes neither the bytes nor the state left for the next batch. */
  lemma {:induction false} SplitIndependence(o: Options, st: State, a: seq<Entry>, b: seq<Entry>)
    ensures RecordAll(o, st, a + b) == RecordAll(o, RecordAll(o, st, a), b)
    ensures EncodeEntries(o, st, a + b) == (match EncodeEntries(o, st, a)
                                            case Err(e) => Err(e)
                                            case Ok(x) => match EncodeEntries(o, RecordAll(o, st, a), b)
                                                          case Err(e) => Err(e)
                                                          case Ok(y) => Ok(x + y))
    decreases a
  {
    hide EncodeEntry, Record;
    if a == [] {
      assert a + b == b;
      var y := EncodeEntries(o, st, b);
      if y.Ok? {
        assert [] + y.value == y.value;
      }
    } else {
      var st1 := Record(o, st, a[0]);
      assert (a + b)[0] == a[0] && (a + b)[1..] == a[1..] + b;
      SplitIndependence(o, st1, a[1..], b);
      var first, x, y :=
        EncodeEntry(o, st, a[0]), EncodeEntries(o, st1, a[1..]), EncodeEntries(o, RecordAll(o, st1, a[1..]), b);
      if first.Ok? && x.Ok? && y.Ok? {
        assert first.value + (x.value + y.value) == first.value + x.value + y.value;
      }
    }
  }
}
