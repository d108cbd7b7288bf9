/** One synchronisation run as a function of the filesystem it starts from. */
module SyncSpec {
  import opened Wire
  import opened MemoryFs
  import opened PathOrder

  datatype UpdateMode = QuickCheck | Checksum | SizeOnly | IgnoreTimes

  datatype DeleteMode = NoDelete | DeleteBefore | DeleteDuring | DeleteDelay | DeleteAfter

  /** `protect` stands for the filter rules and the files-from list: what a delete pass must skip. */
  datatype Options = Options(
    recursive: bool, transferDirs: bool, delete: bool, deleteMode: DeleteMode, dryRun: bool,
    updateMode: UpdateMode, inPlace: bool, preserveMtime: bool, omitDirTimes: bool, mkpath: bool,
    existingOnly: bool, ignoreExisting: bool, skipNewerReceiver: bool,
    maxSize: Option<nat>, minSize: Option<nat>, modifyWindow: int,
    forceDelete: bool, maxDelete: Option<nat>, ignoreErrors: bool,
    protect: (Path, FileType) -> bool)

  datatype Action =
    | CreateDir(path: Path)
    | WriteFileAction(path: Path, len: nat)
    | WriteInPlace(path: Path, len: nat)
    | PreserveMtime(path: Path)
    | DeleteFile(path: Path)
    | DeleteDir(path: Path)
    | ProtectDelete(path: Path)
    | Warn(path: Path)

  /** Where a stretch of a run ends: the filesystem, what it reported, and the error that stopped it. */
  datatype Run = Run(nodes: Nodes, report: seq<Action>, error: Option<FsError>)

  function Idle(n: Nodes): Run {
    Run(n, [], None)
  }

  function Fail(n: Nodes, e: FsError): Run {
    Run(n, [], Some(e))
  }

  /** `next` starts from where `first` ended, unless `first` failed. */
  function Then(first: Run, next: Run): Run {
    if first.error.Some? then first else Run(next.nodes, first.report + next.report, next.error)
  }

  /** Reports an action and, in a real run, carries it out. */
  function Act(o: Options, n: Nodes, a: Action, effect: FsResult<Nodes>): Run {
    if o.dryRun then Run(n, [a], None)
    else
      match effect
      case Done(m) => Run(m, [a], None)
      case Failed(e) => Run(n, [a], Some(e))
  }

  function EffectiveDelete(o: Options): DeleteMode {
    if !o.deleteMode.NoDelete? then o.deleteMode else if o.delete then DeleteDuring else NoDelete
  }

  /** The entries below `root` by relative path: all of them, or only the direct children. */
  function Entries(n: Nodes, root: Path, recursive: bool): (m: map<Path, Node>)
    ensures forall rel :: rel in m <==> rel != [] && root + rel in n && (recursive || |rel| == 1)
    ensures forall rel :: rel in m ==> m[rel] == n[root + rel]
  {
    var rels := set p | p in n && Under(p, root) && p != root && (recursive || |p| == |root| + 1) :: p[|root|..];
    forall p | p in n && Under(p, root) ensures root + p[|root|..] == p {
    }
    forall rel | rel != [] && root + rel in n && (recursive || |rel| == 1) ensures rel in rels {
      assert (root + rel)[|root|..] == rel && Under(root + rel, root);
    }
    map rel | rel in rels :: n[root + rel]
  }

  datatype Clearing = Clearing(proceed: bool, run: Run)

  /** Makes way at `target` for an entry of type `t`: a node of another type is removed, or protected. */
  function ClearTarget(o: Options, n: Nodes, target: Path, t: FileType): Clearing {
    if target !in n || n[target].fileType == t then Clearing(true, Idle(n))
    else if n[target].fileType.Directory? then
      if !o.forceDelete && EffectiveDelete(o).NoDelete? && Children(n, target) != {} then
        Clearing(false, Run(n, [ProtectDelete(target)], None))
      else Clearing(true, Act(o, n, DeleteDir(target), RemoveDirAll(n, target)))
    else Clearing(true, Act(o, n, DeleteFile(target), RemoveFile(n, target)))
  }

  function MtimesEqual(left: int, right: int, window: int): bool {
    if window < 0 then left == right
    else (if left < right then right - left else left - right) / 1_000_000_000 <= window
  }

  function NeedsUpdate(o: Options, n: Nodes, from: Path, source: Node, target: Path): FsResult<bool> {
    var len := |source.bytes|;
    if o.maxSize.Some? && len > o.maxSize.value then Done(false)
    else if o.minSize.Some? && len < o.minSize.value then Done(false)
    else if target !in n then Done(!o.existingOnly)
    else if !n[target].fileType.File? then Done(true)
    else if o.ignoreExisting then Done(false)
    else
      var there := n[target];
      if o.skipNewerReceiver && source.modified.Some? && there.modified.Some?
         && there.modified.value > source.modified.value then Done(false)
      else
        match o.updateMode
        case IgnoreTimes => Done(true)
        case SizeOnly => Done(len != |there.bytes|)
        case QuickCheck =>
          Done(|| len != |there.bytes| || source.modified.None? || there.modified.None?
               || !MtimesEqual(source.modified.value, there.modified.value, o.modifyWindow))
        case Checksum =>
          var same :- FilesEqual(n, from, target);
          Done(!same)
  }

  /** After a transfer, and for every directory at the end. */
  function KeepMtime(o: Options, n: Nodes, source: Node, target: Path): Run {
    if !o.preserveMtime || (o.omitDirTimes && source.fileType.Directory?) || source.modified.None? then Idle(n)
    else Act(o, n, PreserveMtime(target), SetMtime(n, target, source.modified.value))
  }

  /** For a file that is up to date already. */
  function KeepExistingMtime(o: Options, n: Nodes, source: Node, target: Path): Run {
    if !o.preserveMtime || source.modified.None? || target !in n || n[target].modified == source.modified then Idle(n)
    else Act(o, n, PreserveMtime(target), SetMtime(n, target, source.modified.value))
  }

  function CopyFile(n: Nodes, from: Path, target: Path): FsResult<Nodes> {
    var bytes :- ReadFile(n, from);
    Done(MemoryFs.WriteFile(n, target, bytes))
  }

  function Transfer(o: Options, n: Nodes, from: Path, source: Node, target: Path): Run {
    var len := |source.bytes|;
    var written := Act(o, n, if o.inPlace then WriteInPlace(target, len) else WriteFileAction(target, len),
                       CopyFile(n, from, target));
    Then(written, KeepMtime(o, written.nodes, source, target))
  }

  function UpdateFile(o: Options, n: Nodes, from: Path, source: Node, target: Path): Run {
    match NeedsUpdate(o, n, from, source, target)
    case Failed(e) => Fail(n, e)
    case Done(false) => KeepExistingMtime(o, n, source, target)
    case Done(true) => Transfer(o, n, from, source, target)
  }

  /** One source entry, brought to `target`. */
  function Step(o: Options, n: Nodes, from: Path, source: Node, target: Path): Run {
    match source.fileType
    case Directory =>
      if !o.recursive && !o.transferDirs then Run(n, [Warn(from)], None)
      else
        var c := ClearTarget(o, n, target, Directory);
        if !c.proceed then c.run
        else Then(c.run, Act(o, c.run.nodes, CreateDir(target), Done(CreateDirAll(c.run.nodes, target))))
    case File =>
      var c := ClearTarget(o, n, target, File);
      if !c.proceed then c.run else Then(c.run, UpdateFile(o, c.run.nodes, from, source, target))
    case Special => Run(n, [Warn(from)], None)
  }

  /** The transfer loop over the source entries still to do, in path order. */
  ghost function Steps(o: Options, n: Nodes, src: Path, dst: Path, source: map<Path, Node>, todo: set<Path>): Run
    requires todo <= source.Keys
    decreases |todo|
  {
    if todo == {} then Idle(n)
    else
      var rel := First(Forward, todo);
      var one := Step(o, n, src + rel, source[rel], dst + rel);
      Then(one, Steps(o, one.nodes, src, dst, source, todo - {rel}))
  }

  /** Directory times go last, deepest paths first, so that filling a directory does not disturb them. */
  ghost function DirTimes(o: Options, n: Nodes, dst: Path, source: map<Path, Node>, todo: set<Path>): Run
    requires todo <= source.Keys
    decreases |todo|
  {
    if todo == {} then Idle(n)
    else
      var rel := First(Backward, todo);
      var one := KeepMtime(o, n, source[rel], dst + rel);
      Then(one, DirTimes(o, one.nodes, dst, source, todo - {rel}))
  }

  function Dirs(o: Options, source: map<Path, Node>): set<Path> {
    if !o.recursive && !o.transferDirs then {} else set rel | rel in source && source[rel].fileType.Directory?
  }

  function DeleteOne(o: Options, n: Nodes, path: Path, t: FileType): Run {
    if t.Directory? then Act(o, n, DeleteDir(path), RemoveDirAll(n, path))
    else Act(o, n, DeleteFile(path), RemoveFile(n, path))
  }

  /** The delete loop over the receiver entries still to do, deepest first. */
  ghost function Deletes(o: Options, n: Nodes, dst: Path, dest: map<Path, Node>, todo: set<Path>, deleted: nat): Run
    requires todo <= dest.Keys
    decreases |todo|
  {
    if todo == {} then Idle(n)
    else
      var rel := First(Deepest, todo);
      var rest := todo - {rel};
      if dst + rel !in n then Deletes(o, n, dst, dest, rest, deleted)
      else if o.protect(rel, dest[rel].fileType) then
        Then(Run(n, [ProtectDelete(dst + rel)], None), Deletes(o, n, dst, dest, rest, deleted))
      else if o.maxDelete.Some? && deleted >= o.maxDelete.value then Fail(n, MaxDeleteExceeded(o.maxDelete.value))
      else
        var one := DeleteOne(o, n, dst + rel, dest[rel].fileType);
        Then(one, Deletes(o, one.nodes, dst, dest, rest, deleted + 1))
  }

  /** The delete pass: every receiver entry with no counterpart in the source. */
  ghost function DeletePass(o: Options, n: Nodes, dst: Path, source: map<Path, Node>, dest: map<Path, Node>): Run {
    Deletes(o, n, dst, dest, dest.Keys - source.Keys, 0)
  }

  predicate DeletesFirst(o: Options) {
    EffectiveDelete(o).DeleteBefore? || EffectiveDelete(o).DeleteDuring?
  }

  predicate DeletesLast(o: Options) {
    EffectiveDelete(o).DeleteDelay? || EffectiveDelete(o).DeleteAfter?
  }

  /** A missing destination needs a parent directory, unless paths may be made. */
  function CheckParent(o: Options, n: Nodes, dst: Path): Option<FsError> {
    if o.mkpath || dst in n || |dst| <= 1 then None
    else if Parent(dst) !in n then Some(NotFound(Parent(dst)))
    else if !n[Parent(dst)].fileType.Directory? then Some(NotDirectory(Parent(dst)))
    else None
  }

  /** The step breaks off while copying bytes or keeping their time. */
  predicate FailsInTransfer(o: Options, n: Nodes, from: Path, source: Node, target: Path) {
    && source.fileType.File?
    && var c := ClearTarget(o, n, target, File);
    && c.proceed && c.run.error.None?
    && NeedsUpdate(o, c.run.nodes, from, source, target) == Done(true)
    && Transfer(o, c.run.nodes, from, source, target).error.Some?
  }

  /** The loop was broken off by a failing transfer, the one failure that is not returned at once. */
  ghost predicate StoppedInTransfer(o: Options, n: Nodes, src: Path, dst: Path, source: map<Path, Node>,
                                    todo: set<Path>)
    requires todo <= source.Keys
    decreases |todo|
  {
    todo != {} &&
    var rel := First(Forward, todo);
    var one := Step(o, n, src + rel, source[rel], dst + rel);
    if one.error.Some? then FailsInTransfer(o, n, src + rel, source[rel], dst + rel)
    else StoppedInTransfer(o, one.nodes, src, dst, source, todo - {rel})
  }

  /** After a failed transfer, delete passes that come last still run when errors are ignored. */
  ghost function Recover(o: Options, r: Run, inTransfer: bool, dst: Path, source: map<Path, Node>, dest: map<Path,
                         Node>): Run {
    if r.error.Some? && inTransfer && o.ignoreErrors && DeletesLast(o) then
      var d := DeletePass(o, r.nodes, dst, source, dest);
      Run(d.nodes, r.report + d.report, if d.error.Some? then d.error else r.error)
    else r
  }

  ghost function SyncDirs(o: Options, n: Nodes, src: Path, dst: Path, source: map<Path, Node>, dest: map<Path,
                          Node>): Run {
    var made := if dst in n then Idle(n) else Act(o, n, CreateDir(dst), Done(CreateDirAll(n, dst)));
    var early := if DeletesFirst(o) then DeletePass(o, made.nodes, dst, source, dest) else Idle(made.nodes);
    var inTransfer := StoppedInTransfer(o, early.nodes, src, dst, source, source.Keys);
    var moved := Recover(o, Steps(o, early.nodes, src, dst, source, source.Keys), inTransfer, dst, source, dest);
    var late := if DeletesLast(o) then DeletePass(o, moved.nodes, dst, source, dest) else Idle(moved.nodes);
    Then(made, Then(early, Then(moved, Then(late, DirTimes(o, late.nodes, dst, source, Dirs(o, source))))))
  }

  /** One file onto one target; a directory destination takes the file under its own name. */
  function SyncFile(o: Options, n: Nodes, src: Path, dst: Path): Run
    requires src in n && n[src].fileType.File?
  {
    var into := dst in n && n[dst].fileType.Directory?;
    if into && src == [] then Fail(n, Unsupported)
    else
      var target := if into then dst + [src[|src| - 1]] else dst;
      match CheckParent(o, n, target)
      case Some(e) => Fail(n, e)
      case None =>
        var c := ClearTarget(o, n, target, File);
        if !c.proceed then c.run else Then(c.run, UpdateFile(o, c.run.nodes, src, n[src], target))
  }

  ghost function Sync(o: Options, n: Nodes, src: Path, dst: Path): Run {
    if Under(dst, src) then Fail(n, DestinationInsideSource)
    else if src !in n then Fail(n, NotFound(src))
    else if n[src].fileType.File? then SyncFile(o, n, src, dst)
    else if !n[src].fileType.Directory? then Fail(n, NotDirectory(src))
    else if dst in n && !n[dst].fileType.Directory? then Fail(n, NotDirectory(dst))
    else
      match CheckParent(o, n, dst)
      case Some(e) => Fail(n, e)
      case None =>
        var dest := if dst in n then Entries(n, dst, o.recursive) else map[];
        SyncDirs(o, n, src, dst, Entries(n, src, o.recursive), dest)
  }
}
