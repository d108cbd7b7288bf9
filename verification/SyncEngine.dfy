/** The sync engine as it runs, step by step over a filesystem, each step proved against its specification. */
module SyncEngine {
  import opened Wire
  import opened MemoryFs
  import opened PathOrder
  import opened SyncSpec
  import opened SyncProgress
  import opened SyncDeletes
  import opened SyncStages
  import opened SyncReceiver

  class SyncReport {
    var actions: seq<Action>

    constructor ()
      ensures actions == []
    {
      actions := [];
    }

    method Push(a: Action)
      modifies this
      ensures actions == old(actions) + [a]
    {
      actions := actions + [a];
    }
  }

  function Outcome(r: Run): FsResult<()> {
    if r.error.Some? then Failed(r.error.value) else Done(())
  }

  /** A method that took the filesystem to `nodes` and the report from `before` to `after` did what `r` says. */
  ghost predicate Follows(r: Run, nodes: Nodes, before: seq<Action>, after: seq<Action>, outcome: FsResult<()>) {
    nodes == r.nodes && after == before + r.report && outcome == Outcome(r)
  }

  /** The given value if the operation went well. */
  function With<T>(done: FsResult<()>, value: T): FsResult<T> {
    match done
    case Done(_) => Done(value)
    case Failed(e) => Failed(e)
  }

  method RemoveConflictingTarget(fs: MemoryFileSystem, report: SyncReport, o: Options, target: Path, t: FileType)
    returns (r: FsResult<bool>)
    modifies fs, report
    ensures var c := ClearTarget(o, old(fs.nodes), target, t);
            && Follows(c.run, fs.nodes, old(report.actions), report.actions, if r.Failed? then Failed(r.error)
                       else Done(()))
            && (r.Done? ==> r.value == c.proceed)
  {
    if target !in fs.nodes {
      return Done(true);
    }
    var there := fs.nodes[target];
    if there.fileType == t {
      return Done(true);
    }
    if there.fileType.Directory? {
      if !o.forceDelete && EffectiveDelete(o).NoDelete? {
        if Children(fs.nodes, target) != {} {
          report.Push(ProtectDelete(target));
          return Done(false);
        }
      }
      report.Push(DeleteDir(target));
      if !o.dryRun {
        var _ :- fs.RemoveDirs(target);
      }
    } else {
      report.Push(DeleteFile(target));
      if !o.dryRun {
        var unlinked := fs.Unlink(target);
        return With(unlinked, true);
      }
    }
    r := Done(true);
  }

  method FileNeedsUpdate(fs: MemoryFileSystem, o: Options, from: Path, source: Node, target: Path)
    returns (r: FsResult<bool>)
    ensures r == NeedsUpdate(o, fs.nodes, from, source, target)
  {
    var len := |source.bytes|;
    if o.maxSize.Some? && len > o.maxSize.value {
      return Done(false);
    }
    if o.minSize.Some? && len < o.minSize.value {
      return Done(false);
    }
    if target !in fs.nodes {
      return Done(!o.existingOnly);
    }
    var there := fs.nodes[target];
    if !there.fileType.File? {
      return Done(true);
    }
    if o.ignoreExisting {
      return Done(false);
    }
    if o.skipNewerReceiver && source.modified.Some? && there.modified.Some?
       && there.modified.value > source.modified.value {
      return Done(false);
    }
    match o.updateMode {
      case IgnoreTimes =>
        r := Done(true);
      case SizeOnly =>
        r := Done(len != |there.bytes|);
      case QuickCheck =>
        if len != |there.bytes| {
          r := Done(true);
        } else if source.modified.Some? && there.modified.Some? {
          r := Done(!MtimesEqual(source.modified.value, there.modified.value, o.modifyWindow));
        } else {
          r := Done(true);
        }
      case Checksum =>
        var same :- FilesEqual(fs.nodes, from, target);
        r := Done(!same);
    }
  }

  method PreserveTransferredMtime(fs: MemoryFileSystem, report: SyncReport, o: Options, source: Node, target: Path)
    returns (r: FsResult<()>)
    modifies fs, report
    ensures Follows(KeepMtime(o, old(fs.nodes), source, target), fs.nodes, old(report.actions), report.actions, r)
  {
    if o.preserveMtime && !(o.omitDirTimes && source.fileType.Directory?) && source.modified.Some? {
      report.Push(PreserveMtime(target));
      if !o.dryRun {
        var _ :- fs.Touch(target, source.modified.value);
      }
    }
    r := Done(());
  }

  method PreserveExistingFileMtime(fs: MemoryFileSystem, report: SyncReport, o: Options, source: Node, target: Path)
    returns (r: FsResult<()>)
    modifies fs, report
    ensures Follows(KeepExistingMtime(o, old(fs.nodes), source, target), fs.nodes, old(report.actions), report.actions,
                    r)
  {
    if !o.preserveMtime || source.modified.None? || target !in fs.nodes {
      return Done(());
    }
    if fs.nodes[target].modified == source.modified {
      return Done(());
    }
    report.Push(PreserveMtime(target));
    r := Done(());
    if !o.dryRun {
      r := fs.Touch(target, source.modified.value);
    }
  }

  method TransferFile(fs: MemoryFileSystem, report: SyncReport, o: Options, from: Path, source: Node, target: Path)
    returns (r: FsResult<()>)
    modifies fs, report
    ensures Follows(Transfer(o, old(fs.nodes), from, source, target), fs.nodes, old(report.actions), report.actions, r)
  {
    hide KeepMtime, WriteFile;
    var len := |source.bytes|;
    report.Push(if o.inPlace then WriteInPlace(target, len) else WriteFileAction(target, len));
    if !o.dryRun {
      var _ :- fs.CopyFile(from, target);
    }
    r := PreserveTransferredMtime(fs, report, o, source, target);
  }

  /** One source entry; a failure is told apart by whether it came from the transfer proper. */
  method SyncEntry(fs: MemoryFileSystem, report: SyncReport, o: Options, from: Path, source: Node, target: Path)
    returns (r: FsResult<()>, inTransfer: bool)
    modifies fs, report
    ensures Follows(Step(o, old(fs.nodes), from, source, target), fs.nodes, old(report.actions), report.actions, r)
    ensures r.Failed? ==> (inTransfer <==> FailsInTransfer(o, old(fs.nodes), from, source, target))
  {
    hide ClearTarget, NeedsUpdate, Transfer, KeepExistingMtime, CreateDirAll;
    inTransfer := false;
    match source.fileType {
      case Directory =>
        if !o.recursive && !o.transferDirs {
          report.Push(Warn(from));
          return Done(()), false;
        }
        var proceed := RemoveConflictingTarget(fs, report, o, target, Directory);
        if proceed.Failed? {
          return Failed(proceed.error), false;
        }
        if proceed.value {
          report.Push(CreateDir(target));
          if !o.dryRun {
            fs.MakeDirs(target);
          }
        }
        r := Done(());
      case File =>
        r, inTransfer := SyncFileEntry(fs, report, o, from, source, target);
      case Special =>
        report.Push(Warn(from));
        r := Done(());
    }
  }

  method SyncFileEntry(fs: MemoryFileSystem, report: SyncReport, o: Options, from: Path, source: Node, target: Path)
    returns (r: FsResult<()>, inTransfer: bool)
    requires source.fileType.File?
    modifies fs, report
    ensures Follows(Step(o, old(fs.nodes), from, source, target), fs.nodes, old(report.actions), report.actions, r)
    ensures r.Failed? ==> (inTransfer <==> FailsInTransfer(o, old(fs.nodes), from, source, target))
  {
    hide ClearTarget, NeedsUpdate, Transfer, KeepExistingMtime;
    var proceed := RemoveConflictingTarget(fs, report, o, target, File);
    if proceed.Failed? {
      return Failed(proceed.error), false;
    }
    if !proceed.value {
      return Done(()), false;
    }
    var needed := FileNeedsUpdate(fs, o, from, source, target);
    if needed.Failed? {
      return Failed(needed.error), false;
    }
    if needed.value {
      inTransfer := true;
      r := TransferFile(fs, report, o, from, source, target);
    } else {
      inTransfer := false;
      r := PreserveExistingFileMtime(fs, report, o, source, target);
    }
  }

  /** What collection has gathered at `at`: the entries below `root`, but only those through `kids`. */
  ghost predicate Gathered(n: Nodes, root: Path, at: Path, recursive: bool, kids: set<Path>, before: map<Path, Node>,
                           after: map<Path, Node>) {
    forall p ::
      Get(after, p) == if Through(n, root, at, recursive, kids, p) then Some(n[root + p[|at|..]]) else Get(before, p)
  }

  predicate Through(n: Nodes, root: Path, at: Path, recursive: bool, kids: set<Path>, p: Path) {
    && Under(p, at) && p != at
    && root + p[|at|..] in n && (recursive || |p| == |at| + 1)
    && root + [p[|at|]] in kids
  }

  lemma KidIsChild(n: Nodes, root: Path, q: Path)
    requires q in Children(n, root)
    ensures q in n && q != [] && |q| == |root| + 1 && q == root + [q[|q| - 1]]
  {
  }

  // Below one child: through it are exactly itself and what is gathered below it.
  lemma ThroughKid(n: Nodes, root: Path, at: Path, recursive: bool, q: Path, p: Path)
    requires Tree(n, root) && q in Children(n, root)
    ensures Through(n, root, at, recursive, {q}, p) <==>
            || p == at + [q[|q| - 1]]
            || (recursive && IsDir(n, q) && Through(n, q, at + [q[|q| - 1]], recursive, Children(n, q), p))
    ensures Through(n, root, at, recursive, {q}, p) && p != at + [q[|q| - 1]] ==>
            root + p[|at|..] == q + p[|at| + 1..]
  {
    var x := q[|q| - 1];
    var below := at + [x];
    KidIsChild(n, root, q);
    if Under(p, at) && p != at && p[|at|] == x {
      assert p == at + [x] + p[|at| + 1..];
      assert root + p[|at|..] == q + p[|at| + 1..];
      if p != below && root + p[|at|..] in n {
        var y := q + [p[|at| + 1]];
        assert q <= y <= root + p[|at|..];
        AncestorsAreDirs(n, root, root + p[|at|..], q);
        if y != root + p[|at|..] {
          AncestorsAreDirs(n, root, root + p[|at|..], y);
        }
        assert Parent(y) == q;
      }
    }
    if Under(p, below) && p != below {
      assert p[|at|] == x && Under(p, at);
    }
  }

  // One more child gathered: the child itself and, where collection goes on, what lies below it.
  lemma GatherKid(n: Nodes, root: Path, at: Path, recursive: bool, done: set<Path>, q: Path,
                  before: map<Path, Node>, mid: map<Path, Node>, after: map<Path, Node>)
    requires Tree(n, root) && q in Children(n, root) && q !in done
             && Gathered(n, root, at, recursive, done, before, mid)
    requires q in n && q != []
    requires var below := at + [q[|q| - 1]];
             var with := mid[below := n[q]];
             if recursive
                && IsDir(n, q) then Gathered(n, q, below, recursive, Children(n, q), with, after) else after == with
    ensures Gathered(n, root, at, recursive, done + {q}, before, after)
  {
    hide Children;
    KidIsChild(n, root, q);
    var below := at + [q[|q| - 1]];
    forall p ensures Get(after, p) == if Through(n, root, at, recursive, done + {q}, p) then Some(n[root + p[|at|..]])
      else Get(before, p) {
      ThroughKid(n, root, at, recursive, q, p);
      ThroughMore(n, root, at, recursive, done, q, p);
      assert p == below ==> root + p[|at|..] == q;
    }
  }

  lemma ThroughMore(n: Nodes, root: Path, at: Path, recursive: bool, done: set<Path>, q: Path, p: Path)
    requires q !in done
    ensures Through(n, root, at, recursive, done + {q}, p) <==>
            Through(n, root, at, recursive, done, p) || Through(n, root, at, recursive, {q}, p)
    ensures !(Through(n, root, at, recursive, done, p) && Through(n, root, at, recursive, {q}, p))
  {
  }

  method CollectRelativeEntries(fs: MemoryFileSystem, current: Path, at: Path, recursive: bool, entries: map<Path,
                                Node>)
    returns (r: FsResult<map<Path, Node>>)
    requires Tree(fs.nodes, current)
    ensures r.Done? <==> IsDir(fs.nodes, current)
    ensures r.Done? ==> Gathered(fs.nodes, current, at, recursive, Children(fs.nodes, current), entries, r.value)
    ensures r.Failed? ==> List(fs.nodes, current) == Failed(r.error)
    decreases set p | p in fs.nodes && Under(p, current)
  {
    hide Children, IsFirst;
    var kids :- List(fs.nodes, current);
    ghost var all := kids;
    var out := entries;
    NothingGathered(fs.nodes, current, at, recursive, entries);
    while kids != {}
      invariant kids <= all && Gathered(fs.nodes, current, at, recursive, all - kids, entries, out)
      decreases kids
    {
      FirstExists(Forward, kids);
      var q :| IsFirst(Forward, kids, q);
      IsFirstIn(Forward, kids, q);
      KidIsChild(fs.nodes, current, q);
      var below := at + [q[|q| - 1]];
      ghost var mid := out;
      out := out[below := fs.nodes[q]];
      if recursive && fs.nodes[q].fileType.Directory? {
        Deeper(fs.nodes, current, q);
        r := CollectRelativeEntries(fs, q, below, recursive, out);
        if r.Failed? {
          return;
        }
        out := r.value;
      }
      GatherKid(fs.nodes, current, at, recursive, all - kids, q, entries, mid, out);
      assert all - kids + {q} == all - (kids - {q});
      kids := kids - {q};
    }
    assert all - kids == all;
    r := Done(out);
  }

  lemma IsFirstIn(o: Order, s: set<Path>, p: Path)
    requires IsFirst(o, s, p)
    ensures p in s
  {
  }

  lemma NothingGathered(n: Nodes, root: Path, at: Path, recursive: bool, entries: map<Path, Node>)
    ensures Gathered(n, root, at, recursive, {}, entries, entries)
  {
  }

  lemma Deeper(n: Nodes, root: Path, q: Path)
    requires root in n && q in Children(n, root) && Tree(n, root)
    ensures Tree(n, q) && q in n
    ensures (set p | p in n && Under(p, q)) < (set p | p in n && Under(p, root))
  {
    KidIsChild(n, root, q);
    assert Under(q, root) && !Under(root, q) && Under(root, root);
    forall p | Under(p, q) ensures Under(p, root) {
      UnderTrans(p, q, root);
    }
    var below, all := (set p | p in n && Under(p, q)), (set p | p in n && Under(p, root));
    assert root in all && root !in below;
  }

  method RelativeEntries(fs: MemoryFileSystem, root: Path, recursive: bool) returns (r: FsResult<map<Path, Node>>)
    requires Tree(fs.nodes, root)
    ensures match List(fs.nodes, root)
            case Failed(e) => r == Failed(e)
            case Done(_) => r == Done(Entries(fs.nodes, root, recursive))
  {
    var entries :- CollectRelativeEntries(fs, root, [], recursive, map[]);
    GatheredIsEntries(fs.nodes, root, recursive, entries);
    r := Done(entries);
  }

  lemma GatheredIsEntries(n: Nodes, root: Path, recursive: bool, entries: map<Path, Node>)
    requires Tree(n, root) && Gathered(n, root, [], recursive, Children(n, root), map[], entries)
    ensures entries == Entries(n, root, recursive)
  {
    hide Entries;
    var m := Entries(n, root, recursive);
    forall rel ensures Get(entries, rel) == Get(m, rel) {
      assert rel[0..] == rel;
      if rel in m {
        var y := root + [rel[0]];
        assert root <= y <= root + rel;
        if y != root + rel {
          AncestorsAreDirs(n, root, root + rel, y);
        }
        assert Parent(y) == root;
      }
    }
    SameMap(entries, m);
  }

  lemma SameMap(a: map<Path, Node>, b: map<Path, Node>)
    requires forall p :: Get(a, p) == Get(b, p)
    ensures a == b
  {
    forall p ensures p in a <==> p in b {
      assert Get(a, p) == Get(b, p);
    }
    assert a.Keys == b.Keys;
    forall p | p in a ensures a[p] == b[p] {
      assert Get(a, p) == Get(b, p);
    }
  }
}
