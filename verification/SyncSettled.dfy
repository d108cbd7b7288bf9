/** A destination that mirrors the source stays as it is, and a run over it writes and deletes nothing. */
module SyncSettled {
  import opened Wire
  import opened MemoryFs
  import opened PathOrder
  import opened SyncSpec
  import opened SyncEffects
  import opened SyncProgress
  import opened SyncDeletes
  import opened SyncStages
  import opened SyncMirror

  /** The update check in force takes equal bytes, and equal times where it looks at them, for up to date. */
  predicate Settles(o: Options, source: map<Path, Node>) {
    match o.updateMode
    case Checksum => true
    case SizeOnly => true
    case QuickCheck => o.preserveMtime && forall rel :: rel in source && source[rel].fileType.File? ==>
      source[rel].modified.Some?
    case IgnoreTimes => false
  }

  /** All a settled run may speak of: directories that are there already, and their times. */
  ghost predicate OnlyDirs(report: seq<Action>, dst: Path, source: map<Path, Node>) {
    forall i :: 0 <= i < |report| ==> OfDir(report[i], dst, source)
  }

  ghost predicate OfDir(a: Action, dst: Path, source: map<Path, Node>) {
    && (a.CreateDir? || a.PreserveMtime?)
    && exists rel :: rel in source && source[rel].fileType.Directory? && a.path == dst + rel
  }

  ghost predicate Settled(r: Run, n: Nodes, dst: Path, source: map<Path, Node>) {
    r.error.None? && r.nodes == n && OnlyDirs(r.report, dst, source)
  }

  lemma SettledThen(a: Run, b: Run, n: Nodes, dst: Path, source: map<Path, Node>)
    requires Settled(a, n, dst, source) && Settled(b, n, dst, source)
    ensures Settled(Then(a, b), n, dst, source)
  {
    hide OfDir;
  }

  lemma FileSettled(o: Options, n: Nodes, from: Path, source: Node, target: Path)
    requires Get(n, from) == Some(source) && source.fileType.File? && target in n
    requires SameContent(n[target], source) && TimeKept(o, n[target], source)
    requires o.updateMode.Checksum? || o.updateMode.SizeOnly?
             || (o.updateMode.QuickCheck? && o.preserveMtime && source.modified.Some?)
    ensures Step(o, n, from, source, target) == Idle(n)
  {
    assert ClearTarget(o, n, target, File) == Clearing(true, Idle(n));
    assert NeedsUpdate(o, n, from, source, target) == Done(false);
    hide ClearTarget, NeedsUpdate;
    assert KeepExistingMtime(o, n, source, target) == Idle(n);
  }

  lemma DirSettled(o: Options, n: Nodes, dst: Path, from: Path, source: Node, target: Path)
    requires o.recursive && source.fileType.Directory? && Home(n, dst) && Under(target, dst) && target != dst
             && IsDir(n, target)
    ensures Step(o, n, from, source, target) == Run(n, [CreateDir(target)], None)
  {
    var up := Parent(target);
    assert Tree(n, dst);
    assert IsDir(n, up);
    hide CreateDirAll, Home;
    ParentsThere(n, dst, target);
  }

  /** The destination already holds all of the source. */
  ghost predicate Copy(o: Options, n: Nodes, src: Path, dst: Path, source: map<Path, Node>) {
    && o.recursive && Home(n, dst) && Ordinary(source) && Settles(o, source)
    && SourceThere(n, src, source) && Mirrored(o, n, dst, source) && [] !in source
  }

  lemma EntrySettled(o: Options, n: Nodes, src: Path, dst: Path, source: map<Path, Node>, rel: Path)
    requires Copy(o, n, src, dst, source) && rel in source
    ensures Settled(Step(o, n, src + rel, source[rel], dst + rel), n, dst, source)
    ensures source[rel].fileType.Directory? ==> Settled(KeepMtime(o, n, source[rel], dst + rel), n, dst, source)
  {
    assert SameContent(n[dst + rel], source[rel]) && TimeKept(o, n[dst + rel], source[rel]);
    hide Step, Home, Mirrored;
    UnderRel(dst, rel, []);
    if source[rel].fileType.Directory? {
      DirSettled(o, n, dst, src + rel, source[rel], dst + rel);
      TimeSettled(o, n, source[rel], dst + rel);
    } else {
      FileSettled(o, n, src + rel, source[rel], dst + rel);
    }
  }

  lemma TimeSettled(o: Options, n: Nodes, source: Node, target: Path)
    requires target in n && TimeKept(o, n[target], source)
    ensures var r := KeepMtime(o, n, source, target);
            r.error.None? && r.nodes == n && (r.report == [] || r.report == [PreserveMtime(target)])
  {
    assert n[target := n[target]] == n;
  }

  lemma {:induction false} StepsSettled(o: Options, n: Nodes, src: Path, dst: Path, source: map<Path, Node>,
                                        todo: set<Path>)
    requires Copy(o, n, src, dst, source) && todo <= source.Keys
    ensures Settled(Steps(o, n, src, dst, source, todo), n, dst, source)
    decreases |todo|
  {
    hide Step, Copy, IsFirst, Then;
    if todo != {} {
      FirstIn(Forward, todo);
      var rel := First(Forward, todo);
      EntrySettled(o, n, src, dst, source, rel);
      StepsSettled(o, n, src, dst, source, todo - {rel});
      SettledThen(Step(o, n, src + rel, source[rel], dst + rel), Steps(o, n, src, dst, source, todo - {rel}), n, dst,
                  source);
    }
  }

  lemma {:induction false} DirTimesSettled(o: Options, n: Nodes, src: Path, dst: Path, source: map<Path, Node>,
                                           todo: set<Path>)
    requires Copy(o, n, src, dst, source) && todo <= source.Keys && forall rel :: rel in todo ==>
               source[rel].fileType.Directory?
    ensures Settled(DirTimes(o, n, dst, source, todo), n, dst, source)
    decreases |todo|
  {
    hide KeepMtime, Copy, IsFirst, Then;
    if todo != {} {
      FirstIn(Backward, todo);
      var rel := First(Backward, todo);
      EntrySettled(o, n, src, dst, source, rel);
      DirTimesSettled(o, n, src, dst, source, todo - {rel});
      SettledThen(KeepMtime(o, n, source[rel], dst + rel), DirTimes(o, n, dst, source, todo - {rel}), n, dst, source);
    }
  }

  /**
   * A run over a mirror changes nothing, whatever the delete mode, limits, protections and size bounds, and says
   * nothing but that the source's directories are there.
   */
  lemma MirrorIsSettled(o: Options, n: Nodes, src: Path, dst: Path)
    requires o.recursive && Tree(n, []) && IsDir(n, src) && Apart(src, dst)
    requires var source := Entries(n, src, true);
             Ordinary(source) && Settles(o, source) && Mirrored(o, n, dst, source)
    ensures Settled(Sync(o, n, src, dst), n, dst, Entries(n, src, true))
  {
    var source, dest := Entries(n, src, o.recursive), Listing(n, dst, o.recursive);
    assert IsDir(n, dst);
    hide Sync, SyncDirs, Entries, Mirrored, Tree, CheckParent, Ordinary, Settles;
    StartHolds(o, n, src, dst);
    MirrorStart(o, n, src, dst, source, dest);
    ThereNoCheck(o, n, dst);
    SyncOfDirs(o, n, src, dst);
    DirsSettled(o, n, src, dst, source, dest);
  }

  lemma MirrorStart(o: Options, n: Nodes, src: Path, dst: Path, source: map<Path, Node>, dest: map<Path, Node>)
    requires o.recursive && Start(o, n, src, dst, source, dest) && Mirrored(o, n, dst, source) && Ordinary(source)
             && Settles(o, source)
    requires dest == Entries(n, dst, true)
    ensures Copy(o, n, src, dst, source) && dest.Keys == source.Keys && dst in n
  {
    hide Tree, Entries, CreateDirAll, Settles, SameContent, TimeKept, Apart, Collected, DestThere, SourceThere;
    MadeHome(n, dst);
    NoRoot(o, src, dst, source, n, dest);
    assert forall rel :: rel in dest <==> rel in source;
  }

  lemma NoRoot(o: Options, src: Path, dst: Path, source: map<Path, Node>, n: Nodes, dest: map<Path, Node>)
    requires Start(o, n, src, dst, source, dest)
    ensures [] !in source
  {
  }

  lemma DirsSettled(o: Options, n: Nodes, src: Path, dst: Path, source: map<Path, Node>, dest: map<Path, Node>)
    requires Copy(o, n, src, dst, source) && dest.Keys == source.Keys && dst in n
    ensures Settled(SyncDirs(o, n, src, dst, source, dest), n, dst, source)
  {
    hide Steps, DirTimes, Copy, Deletes, EffectiveDelete, Then, StoppedInTransfer, OnlyDirs;
    StepsSettled(o, n, src, dst, source, source.Keys);
    DirTimesSettled(o, n, src, dst, source, Dirs(o, source));
    NoDeletes(o, n, dst, source, dest);
    IdleSettled(n, dst, source);
    SyncDirsIs(o, n, src, dst, source, dest);
    var moved := Steps(o, n, src, dst, source, source.Keys);
    var times := DirTimes(o, n, dst, source, Dirs(o, source));
    SettledThen(Idle(n), times, n, dst, source);
    SettledThen(moved, Then(Idle(n), times), n, dst, source);
    SettledThen(Idle(n), Then(moved, Then(Idle(n), times)), n, dst, source);
    SettledThen(Idle(n), Then(Idle(n), Then(moved, Then(Idle(n), times))), n, dst, source);
  }

  lemma NoDeletes(o: Options, n: Nodes, dst: Path, source: map<Path, Node>, dest: map<Path, Node>)
    requires dest.Keys == source.Keys
    ensures DeletePass(o, n, dst, source, dest) == Idle(n)
  {
    assert dest.Keys - source.Keys == {};
  }

  lemma IdleSettled(n: Nodes, dst: Path, source: map<Path, Node>)
    ensures Settled(Idle(n), n, dst, source)
  {
  }

  /** Two runs: the first makes the mirror, the second finds nothing to do. */
  lemma SecondRunIsQuiet(first: Options, second: Options, n: Nodes, src: Path, dst: Path)
    requires Plain(first) && Tree(n, []) && IsDir(n, src) && Apart(src, dst) && Ordinary(Entries(n, src, true))
    requires IsDir(n, dst) || (dst !in n && CheckParent(first, n, dst).None? && WayIsDirs(n, dst))
    requires second.recursive && Settles(second, Entries(n, src, true))
    requires second.preserveMtime ==> first.preserveMtime && (first.omitDirTimes ==> second.omitDirTimes)
    ensures var m := Sync(first, n, src, dst).nodes;
            Settled(Sync(second, m, src, dst), m, dst, Entries(n, src, true))
  {
    var m := Sync(first, n, src, dst).nodes;
    var source := Entries(n, src, true);
    ThoroughFacts(first);
    MirrorTheorem(first, n, src, dst);
    hide Sync, Entries, Plain, Thorough, Settled, Ordinary, Settles, CheckParent;
    LaxerMirror(first, second, m, dst, source);
    EntriesCollected(first, n, src);
    StillTree(first, n, m, src, dst, source);
    MirrorIsSettled(second, m, src, dst);
  }

  /** Whatever is on the way to the destination is a directory. */
  ghost predicate WayIsDirs(n: Nodes, dst: Path) {
    forall q :: Under(dst, q) && q in n ==> n[q].fileType.Directory?
  }

  // After the first run the filesystem still hangs together.
  lemma StillTree(o: Options, n: Nodes, m: Nodes, src: Path, dst: Path, source: map<Path, Node>)
    requires Tree(n, []) && IsDir(n, src) && Apart(src, dst) && (IsDir(n, dst) || (dst !in n && WayIsDirs(n, dst)))
    requires Closed(source) && Mirrored(o, m, dst, source) && OnlyTheWay(n, m, dst)
    ensures Tree(m, []) && IsDir(m, src)
  {
    assert Get(m, src) == Get(n, src);
    forall p | p in m && Under(p, []) && p != [] ensures IsDir(m, Parent(p)) {
      if Under(p, dst) && p != dst {
        BelowMirror(o, m, dst, source, p);
      } else {
        AboveMirror(o, n, m, dst, source, p);
      }
    }
  }

  lemma BelowMirror(o: Options, m: Nodes, dst: Path, source: map<Path, Node>, p: Path)
    requires Closed(source) && Mirrored(o, m, dst, source) && p in m && Under(p, dst) && p != dst
    ensures IsDir(m, Parent(p))
  {
    hide TimeKept;
    var rel := p[|dst|..];
    assert dst + rel == p;
    ParentOf(dst, rel);
    if |rel| == 1 {
      assert Parent(p) == dst;
    } else {
      assert SameContent(m[dst + Parent(rel)], source[Parent(rel)]);
    }
  }

  lemma AboveMirror(o: Options, n: Nodes, m: Nodes, dst: Path, source: map<Path, Node>, p: Path)
    requires Tree(n, []) && (IsDir(n, dst) || (dst !in n && WayIsDirs(n, dst)))
    requires Mirrored(o, m, dst, source) && OnlyTheWay(n, m, dst)
    requires p in m && p != [] && (p == dst || !Under(p, dst))
    ensures IsDir(m, Parent(p))
  {
    hide TimeKept, SameContent;
    var up := Parent(p);
    assert Under(p, up) && Under(p, []);
    assert !Under(up, dst);
    assert Get(m, up) == Get(n, up) || Get(m, up) == Some(EMPTY_DIR);
    if p in n {
      assert IsDir(n, up);
    } else {
      assert Under(dst, p);
      UnderTrans(dst, p, up);
    }
  }

  lemma LaxerMirror(first: Options, second: Options, m: Nodes, dst: Path, source: map<Path, Node>)
    requires Mirrored(first, m, dst, source)
    requires second.preserveMtime ==> first.preserveMtime && (first.omitDirTimes ==> second.omitDirTimes)
    ensures Mirrored(second, m, dst, source)
  {
  }
}
