/** What a dry run says against what the real run does. */
module SyncDryRun {
  import opened Wire
  import opened MemoryFs
  import opened PathOrder
  import opened SyncSpec
  import opened SyncEffects

  function Dry(o: Options): (d: Options)
    ensures d.dryRun && EffectiveDelete(d) == EffectiveDelete(o) && d.protect == o.protect && d.maxDelete == o.maxDelete
    ensures d.recursive == o.recursive && d.transferDirs == o.transferDirs
  {
    o.(dryRun := true)
  }

  function Real(o: Options): (r: Options)
    ensures !r.dryRun && EffectiveDelete(r) == EffectiveDelete(o) && r.protect == o.protect
            && r.maxDelete == o.maxDelete
    ensures r.recursive == o.recursive && r.transferDirs == o.transferDirs
  {
    o.(dryRun := false)
  }

  lemma ClearDry(o: Options, n: Nodes, target: Path, t: FileType)
    requires o.dryRun
    ensures ClearTarget(o, n, target, t).run.nodes == n
  {
  }

  lemma UpdateDry(o: Options, n: Nodes, from: Path, source: Node, target: Path)
    requires o.dryRun
    ensures UpdateFile(o, n, from, source, target).nodes == n
  {
    hide NeedsUpdate, CopyFile;
  }

  lemma StepDry(o: Options, n: Nodes, from: Path, source: Node, target: Path)
    requires o.dryRun
    ensures Step(o, n, from, source, target).nodes == n
  {
    hide ClearTarget, UpdateFile, CreateDirAll;
    ClearDry(o, n, target, File);
    ClearDry(o, n, target, Directory);
    UpdateDry(o, n, from, source, target);
  }

  lemma {:induction false} StepsDry(o: Options, n: Nodes, src: Path, dst: Path, source: map<Path, Node>,
                                    todo: set<Path>)
    requires o.dryRun && todo <= source.Keys
    ensures Steps(o, n, src, dst, source, todo).nodes == n
    decreases |todo|
  {
    hide Step;
    if todo != {} {
      var rel := First(Forward, todo);
      StepDry(o, n, src + rel, source[rel], dst + rel);
      StepsDry(o, n, src, dst, source, todo - {rel});
    }
  }

  lemma {:induction false} DirTimesDry(o: Options, n: Nodes, dst: Path, source: map<Path, Node>, todo: set<Path>)
    requires o.dryRun && todo <= source.Keys
    ensures DirTimes(o, n, dst, source, todo).nodes == n
    decreases |todo|
  {
    if todo != {} {
      var rel := First(Backward, todo);
      DirTimesDry(o, n, dst, source, todo - {rel});
    }
  }

  lemma {:induction false} DeletesDry(o: Options, n: Nodes, dst: Path, dest: map<Path, Node>, todo: set<Path>,
                                      deleted: nat)
    requires o.dryRun && todo <= dest.Keys
    ensures Deletes(o, n, dst, dest, todo, deleted).nodes == n
    decreases |todo|
  {
    if todo != {} {
      var rest := todo - {First(Deepest, todo)};
      DeletesDry(o, n, dst, dest, rest, deleted);
      DeletesDry(o, n, dst, dest, rest, deleted + 1);
    }
  }

  lemma SyncFileDry(o: Options, n: Nodes, src: Path, dst: Path)
    requires o.dryRun && src in n && n[src].fileType.File?
    ensures SyncFile(o, n, src, dst).nodes == n
  {
    hide ClearTarget, UpdateFile, CheckParent, Step;
    var into := dst in n && n[dst].fileType.Directory?;
    if src != [] || !into {
      ClearDry(o, n, if into then dst + [src[|src| - 1]] else dst, File);
      UpdateDry(o, n, src, n[src], if into then dst + [src[|src| - 1]] else dst);
    }
  }

  lemma SyncDirsDry(o: Options, n: Nodes, src: Path, dst: Path, source: map<Path, Node>, dest: map<Path, Node>)
    requires o.dryRun
    ensures SyncDirs(o, n, src, dst, source, dest).nodes == n
  {
    hide Steps, DirTimes, Deletes, StoppedInTransfer, CreateDirAll;
    StepsDry(o, n, src, dst, source, source.Keys);
    DirTimesDry(o, n, dst, source, Dirs(o, source));
    DeletesDry(o, n, dst, dest, dest.Keys - source.Keys, 0);
  }

  /** Whatever the options, a dry run leaves the filesystem as it was. */
  lemma DryRunChangesNothing(o: Options, n: Nodes, src: Path, dst: Path)
    requires o.dryRun
    ensures Sync(o, n, src, dst).nodes == n
  {
    hide SyncFile, SyncDirs, CheckParent, Entries;
    if src in n && n[src].fileType.File? {
      SyncFileDry(o, n, src, dst);
    }
    SyncDirsDry(o, n, src, dst, Entries(n, src, o.recursive), if dst in n then Entries(n, dst, o.recursive) else map[]);
  }

  /**
   * A file that finds something other than a file at its target. The real run has removed that by the
   * time it asks whether to write; the dry run still sees it there.
   */
  ghost predicate Misjudged(o: Options, n: Nodes, source: Node, target: Path) {
    && source.fileType.File? && target in n && !n[target].fileType.File?
    && ClearTarget(o, n, target, File).proceed
    && SeesOtherwise(o, source, n[target])
  }

  predicate SeesOtherwise(o: Options, source: Node, there: Node) {
    if OutsideSizes(o, |source.bytes|) then
      o.preserveMtime && source.modified.Some? && there.modified != source.modified
    else o.existingOnly
  }

  predicate OutsideSizes(o: Options, len: nat) {
    (o.maxSize.Some? && len > o.maxSize.value) || (o.minSize.Some? && len < o.minSize.value)
  }

  /** How a dry stretch of a run compares with the real one. */
  ghost predicate Compare(dry: Run, done: Run, misjudged: bool) {
    && dry.error.None? && done.error.None?
    && if misjudged then |dry.report| > |done.report| else dry.report == done.report
  }

  lemma UpdateCompare(o: Options, n: Nodes, m: Nodes, dst: Path, from: Path, source: Node, target: Path)
    requires Home(m, dst) && Under(target, dst) && target != dst
    requires Parent(target) in m && m[Parent(target)].fileType.Directory?
    requires Get(n, from) == Get(m, from) == Some(source) && !Under(from, dst) && source.fileType.File?
    requires Get(n, target) == Get(m, target) && (target in n ==> n[target].fileType.File?)
    ensures Compare(UpdateFile(Dry(o), n, from, source, target), UpdateFile(Real(o), m, from, source, target), false)
  {
    hide CopyFile, MtimesEqual, Home;
    UpdateEffect(Real(o), m, dst, from, source, target);
    assert NeedsUpdate(Dry(o), n, from, source, target) == NeedsUpdate(Real(o), m, from, source, target);
  }

  lemma DisplacedNeeds(o: Options, n: Nodes, m: Nodes, from: Path, source: Node, target: Path)
    requires target !in m && target in n && !n[target].fileType.File?
    ensures NeedsUpdate(Dry(o), n, from, source, target) == Done(!OutsideSizes(o, |source.bytes|))
    ensures NeedsUpdate(Real(o), m, from, source, target) == Done(!OutsideSizes(o, |source.bytes|) && !o.existingOnly)
  {
  }

  lemma DisplacedCompare(o: Options, n: Nodes, m: Nodes, dst: Path, from: Path, source: Node, target: Path)
    requires Home(m, dst) && Under(target, dst) && target != dst
    requires Parent(target) in m && m[Parent(target)].fileType.Directory?
    requires Get(m, from) == Some(source) && !Under(from, dst) && source.fileType.File?
    requires target !in m && target in n && !n[target].fileType.File?
    ensures Compare(UpdateFile(Dry(o), n, from, source, target), UpdateFile(Real(o), m, from, source, target),
                    SeesOtherwise(o, source, n[target]))
  {
    hide CopyFile, Home, NeedsUpdate, OutsideSizes;
    UpdateEffect(Real(o), m, dst, from, source, target);
    DisplacedNeeds(o, n, m, from, source, target);
  }

  // What clearing says depends on the node at the target alone, and on its being empty.
  lemma ClearSays(o: Options, p: Options, n: Nodes, m: Nodes, target: Path, t: FileType)
    requires o.forceDelete == p.forceDelete && EffectiveDelete(o) == EffectiveDelete(p)
    requires Get(n, target) == Get(m, target)
    requires EffectiveDelete(o).NoDelete? && !t.Directory? ==> Children(n, target) == Children(m, target)
    ensures var c, d := ClearTarget(o, n, target, t), ClearTarget(p, m, target, t);
            c.proceed == d.proceed && c.run.report == d.run.report
  {
    hide RemoveDirAll, RemoveFile, Children, EffectiveDelete;
  }

  lemma ClearCompare(o: Options, n: Nodes, m: Nodes, dst: Path, target: Path, t: FileType)
    requires Home(m, dst) && Under(target, dst) && target != dst
    requires Get(n, target) == Get(m, target)
    requires EffectiveDelete(o).NoDelete? && !t.Directory? ==> Children(n, target) == Children(m, target)
    ensures var d, r := ClearTarget(Dry(o), n, target, t), ClearTarget(Real(o), m, target, t);
            && d.proceed == r.proceed == ClearTarget(o, n, target, t).proceed
            && d.run.error == r.run.error == None && d.run.report == r.run.report && d.run.nodes == n
  {
    ClearSays(Dry(o), Real(o), n, m, target, t);
    ClearSays(Dry(o), o, n, n, target, t);
    ClearDry(Dry(o), n, target, t);
    assert ClearTarget(Dry(o), n, target, t).run.error.None?;
    assert ClearTarget(Real(o), m, target, t).run.error.None? by {
      ClearEffect(Real(o), m, dst, target, t);
    }
  }

  lemma StepCompare(o: Options, n: Nodes, m: Nodes, dst: Path, from: Path, source: Node, target: Path)
    requires Home(m, dst) && Under(target, dst) && target != dst
    requires Parent(target) in m && m[Parent(target)].fileType.Directory?
    requires Get(n, from) == Get(m, from) == Some(source) && !Under(from, dst)
    requires Get(n, target) == Get(m, target)
    requires EffectiveDelete(o).NoDelete? && !source.fileType.Directory? ==> Children(n, target) == Children(m, target)
    ensures Compare(Step(Dry(o), n, from, source, target), Step(Real(o), m, from, source, target),
                    Misjudged(o, n, source, target))
  {
    hide UpdateFile, Home, ClearTarget, Children, CreateDirAll, SeesOtherwise;
    match source.fileType
    case Special =>
    case Directory =>
      ClearCompare(o, n, m, dst, target, Directory);
      assert Step(Real(o), m, from, source, target).error.None? by {
        StepEffect(Real(o), m, dst, from, source, target);
      }
      assert ClearTarget(Real(o), m, target, Directory).proceed by { ClearEffect(Real(o), m, dst, target, Directory); }
    case File =>
      FileCompare(o, n, m, dst, from, source, target);
  }

  lemma ThenCompare(a: Run, b: Run, dry: Run, done: Run, misjudged: bool)
    requires Compare(a, b, false) && Compare(dry, done, misjudged)
    ensures Compare(Then(a, dry), Then(b, done), misjudged)
  {
  }

  lemma ProceedCompare(o: Options, n: Nodes, m: Nodes, dst: Path, from: Path, source: Node, target: Path)
    requires Home(m, dst) && Under(target, dst) && target != dst
    requires Parent(target) in m && m[Parent(target)].fileType.Directory?
    requires Get(n, from) == Get(m, from) == Some(source) && !Under(from, dst) && source.fileType.File?
    requires Get(n, target) == Get(m, target)
    requires ClearTarget(o, n, target, File).proceed && ClearTarget(Real(o), m, target, File).proceed
    ensures Compare(UpdateFile(Dry(o), n, from, source, target),
                    UpdateFile(Real(o), ClearTarget(Real(o), m, target, File).run.nodes, from, source, target),
                    Misjudged(o, n, source, target))
  {
    hide UpdateFile, ClearTarget, SeesOtherwise, EffectiveDelete, Compare, Dry;
    ClearEffect(Real(o), m, dst, target, File);
    var c := ClearTarget(Real(o), m, target, File);
    assert !Under(Parent(target), target) && !Under(from, target);
    assert Get(c.run.nodes, Parent(target)) == Get(m, Parent(target)) && Get(c.run.nodes, from) == Get(m, from);
    if target in n && !n[target].fileType.File? {
      DisplacedCompare(o, n, c.run.nodes, dst, from, source, target);
    } else {
      UpdateCompare(o, n, c.run.nodes, dst, from, source, target);
    }
  }

  lemma FileCompare(o: Options, n: Nodes, m: Nodes, dst: Path, from: Path, source: Node, target: Path)
    requires Home(m, dst) && Under(target, dst) && target != dst
    requires Parent(target) in m && m[Parent(target)].fileType.Directory?
    requires Get(n, from) == Get(m, from) == Some(source) && !Under(from, dst) && source.fileType.File?
    requires Get(n, target) == Get(m, target)
    requires EffectiveDelete(o).NoDelete? ==> Children(n, target) == Children(m, target)
    ensures Compare(Step(Dry(o), n, from, source, target), Step(Real(o), m, from, source, target),
                    Misjudged(o, n, source, target))
  {
    hide UpdateFile, ClearTarget, Children, SeesOtherwise, EffectiveDelete, Then, Dry, Real;
    var d, r := ClearTarget(Dry(o), n, target, File), ClearTarget(Real(o), m, target, File);
    ClearCompare(o, n, m, dst, target, File);
    assert Compare(d.run, r.run, false);
    if d.proceed {
      ProceedCompare(o, n, m, dst, from, source, target);
      ThenCompare(d.run, r.run, UpdateFile(Dry(o), n, from, source, target),
                  UpdateFile(Real(o), r.run.nodes, from, source, target), Misjudged(o, n, source, target));
    } else {
      assert !Misjudged(o, n, source, target);
    }
  }
}
