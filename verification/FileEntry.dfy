/** File-list entries, their wire paths and the option set both ends agree on. */
module FileEntry {
  import opened Wire

  datatype FileType = File | Directory | Symlink

  datatype HardLinkGroup = HardLinkGroup(device: u64, inode: nat)

  datatype Xattr = Xattr(name: seq<byte>, value: seq<byte>)

  datatype Metadata = Metadata(
    uid: Option<u32>, gid: Option<u32>,
    userName: Option<seq<byte>>, groupName: Option<seq<byte>>,
    atime: Option<i64>, crtime: Option<i64>,
    xattrs: seq<Xattr>)

  type Checksum = c: seq<byte> | |c| == 16 witness seq(16, _ => 0)

  datatype Entry = Entry(
    path: seq<byte>, fileType: FileType, len: u64, mtime: i64, mode: u32,
    checksum: Option<Checksum>, hardLink: Option<HardLinkGroup>, meta: Metadata)

  datatype Options = Options(
    includeChecksums: bool, preserveOwner: bool, preserveGroup: bool, numericIds: bool,
    acls: bool, xattrs: bool, fakeSuper: bool, atimes: bool, crtimes: bool)

  /** The reader's limits. */
  datatype Limits = Limits(maxEntries: nat, maxPathLen: nat)

  const SLASH: byte := 0x2f
  const BACKSLASH: byte := 0x5c
  const DOT: byte := 0x2e
  const SPACE: byte := 0x20

  const TOP_DIR_PATH: seq<byte> := [DOT]

  /** S_IFMT decides the type; only regular files, directories and symlinks are carried. */
  function FileTypeFromMode(mode: u32): Result<FileType> {
    var kind := mode / 0x1000 % 0x10;
    if kind == 8 then Ok(File) else if kind == 4 then Ok(Directory) else if kind == 10 then Ok(Symlink)
    else Err(UnsupportedMode)
  }

  /** Backslashes become slashes before a path is sent. */
  function ToWirePath(path: seq<byte>): (w: seq<byte>)
    ensures |w| == |path|
    ensures BACKSLASH !in w
    ensures w == path <==> BACKSLASH !in path
  {
    if path == [] then []
    else
      var head := if path[0] == BACKSLASH then SLASH else path[0];
      [head] + ToWirePath(path[1..])
  }

  function Split(s: seq<byte>, at: byte): (parts: seq<seq<byte>>)
    ensures parts != []
  {
    if s == [] then [[]]
    else
      var rest := Split(s[1..], at);
      if s[0] == at then [[]] + rest else [[s[0]] + rest[0]] + rest[1..]
  }

  function ToUpper(s: seq<byte>): seq<byte> {
    if s == [] then []
    else [if 0x61 <= s[0] <= 0x7a then s[0] - 0x20 else s[0]] + ToUpper(s[1..])
  }

  function TrimEnd(s: seq<byte>, b: byte): seq<byte> {
    if s != [] && s[|s| - 1] == b then TrimEnd(s[..|s| - 1], b) else s
  }

  // CON, PRN, AUX and NUL, then COM and LPT, in ASCII.
  const DEVICE_NAMES: set<seq<byte>> :=
    {[0x43, 0x4f, 0x4e], [0x50, 0x52, 0x4e], [0x41, 0x55, 0x58], [0x4e, 0x55, 0x4c]}
  const NUMBERED_DEVICES: set<seq<byte>> := {[0x43, 0x4f, 0x4d], [0x4c, 0x50, 0x54]}

  predicate IsReservedWindowsName(component: seq<byte>) {
    var stem := ToUpper(TrimEnd(Split(component, DOT)[0], SPACE));
    || stem in DEVICE_NAMES
    || (|stem| == 4 && stem[..3] in NUMBERED_DEVICES && 0x31 <= stem[3] <= 0x39)
  }

  // The characters < > : " | ? *
  const RESERVED_CHARS: set<byte> := {0x3c, 0x3e, 0x3a, 0x22, 0x7c, 0x3f, 0x2a}

  // Controls are U+0000..U+001F, U+007F and U+0080..U+009F, the last as their two UTF-8 bytes.
  predicate HasForbiddenChar(component: seq<byte>) {
    exists i :: 0 <= i < |component| &&
                (|| component[i] < 0x20 || component[i] == 0x7f
                 || (component[i] == 0xc2 && i + 1 < |component| && 0x80 <= component[i + 1] <= 0x9f)
                 || component[i] in RESERVED_CHARS)
  }

  predicate ValidComponent(c: seq<byte>) {
    && c != [] && c != [DOT] && c != [DOT, DOT]
    && c[|c| - 1] != SPACE && c[|c| - 1] != DOT
    && !HasForbiddenChar(c)
    && !IsReservedWindowsName(c)
  }

  predicate Continues(s: seq<byte>, i: nat, low: byte, high: byte) {
    i < |s| && low <= s[i] <= high
  }

  /** The length of the character `s` starts with, or none if that is not well-formed UTF-8. */
  function CharLen(s: seq<byte>): (n: nat)
    ensures n <= |s|
  {
    if s == [] then 0
    else
      var a := s[0];
      if a < 0x80 then 1
      else if 0xc2 <= a <= 0xdf && Continues(s, 1, 0x80, 0xbf) then 2
      else if 0xe0 <= a <= 0xef && Continues(s, 2, 0x80, 0xbf)
              && Continues(s, 1, if a == 0xe0 then 0xa0 else 0x80, if a == 0xed then 0x9f else 0xbf) then 3
      else if 0xf0 <= a <= 0xf4 && Continues(s, 2, 0x80, 0xbf) && Continues(s, 3, 0x80, 0xbf)
              && Continues(s, 1, if a == 0xf0 then 0x90 else 0x80, if a == 0xf4 then 0x8f else 0xbf) then 4
      else 0
  }

  /** Well-formed UTF-8: nothing overlong, no surrogates, nothing beyond U+10FFFF. */
  predicate Utf8(s: seq<byte>) {
    s == [] || (CharLen(s) > 0 && Utf8(s[CharLen(s)..]))
  }

  predicate SafePath(path: seq<byte>) {
    || path == TOP_DIR_PATH
    || (&& path != [] && path[0] != SLASH
        && forall c :: c in Split(path, SLASH) ==> ValidComponent(c))
  }

  predicate ValidWirePath(path: seq<byte>) {
    Utf8(path) && SafePath(path)
  }

  function WirePathFromBytes(path: seq<byte>): (r: Result<seq<byte>>)
    ensures r.Ok? <==> BACKSLASH !in path && ValidWirePath(path)
    ensures r.Ok? ==> r.value == path
  {
    if !Utf8(path) then Err(InvalidUtf8)
    else if BACKSLASH in path then Err(BackslashInPath)
    else if !SafePath(path) then Err(UnsafePath)
    else Ok(path)
  }

  /** The longest shared prefix, at most 255 bytes so that its length fits a byte. */
  function CommonPrefixLen(left: seq<byte>, right: seq<byte>): (n: nat)
    ensures n <= 255 && n <= |left| && n <= |right|
    ensures left[..n] == right[..n]
  {
    CommonPrefix(left, right, 255)
  }

  function CommonPrefix(left: seq<byte>, right: seq<byte>, limit: nat): (n: nat)
    ensures n <= limit && n <= |left| && n <= |right|
    ensures left[..n] == right[..n]
  {
    if limit == 0 || left == [] || right == [] || left[0] != right[0] then 0
    else
      var n := CommonPrefix(left[1..], right[1..], limit - 1);
      assert left[..n + 1] == [left[0]] + left[1..][..n];
      assert right[..n + 1] == [right[0]] + right[1..][..n];
      n + 1
  }
}
