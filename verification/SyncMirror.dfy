/** A run with deletion on makes the destination a copy of the source, and a second run has nothing to do. */
module SyncMirror {
  import opened Wire
  import opened MemoryFs
  import opened PathOrder
  import opened SyncSpec
  import opened SyncEffects
  import opened SyncProgress
  import opened SyncDeletes
  import opened SyncStages

  /** A real recursive run that deletes, and compares contents or copies always. It may protect what it likes. */
  predicate Thorough(o: Options) {
    && o.recursive && !o.dryRun && !EffectiveDelete(o).NoDelete?
    && (o.updateMode.Checksum? || o.updateMode.IgnoreTimes?)
    && !o.existingOnly && !o.ignoreExisting && !o.skipNewerReceiver && o.maxSize.None? && o.minSize.None?
    && o.maxDelete.None?
  }

  /** Such a run that protects nothing. */
  ghost predicate Plain(o: Options) {
    Thorough(o) && forall p, t :: !o.protect(p, t)
  }

  predicate SameContent(there: Node, source: Node) {
    there.fileType == source.fileType && (source.fileType.File? ==> there.bytes == source.bytes)
  }

  predicate TimeKept(o: Options, there: Node, source: Node) {
    o.preserveMtime && source.modified.Some? && !(o.omitDirTimes && source.fileType.Directory?)
    ==> there.modified == source.modified
  }

  /** The entry has arrived; a directory's time is left for the end. */
  ghost predicate Arrived(o: Options, m: Nodes, source: Node, target: Path) {
    target in m && SameContent(m[target], source) && (source.fileType.File? ==> TimeKept(o, m[target], source))
  }

  lemma TimeIsKept(o: Options, n: Nodes, source: Node, target: Path)
    requires !o.dryRun && target in n
    ensures forall r :: r == KeepMtime(o, n, source, target)
                        || (r == KeepExistingMtime(o, n, source, target) && source.fileType.File?) ==>
              target in r.nodes && TimeKept(o, r.nodes[target], source)
  {
  }

  lemma FileArrives(o: Options, n: Nodes, dst: Path, from: Path, source: Node, target: Path)
    requires Thorough(o) && Home(n, dst) && Under(target, dst) && target != dst && IsDir(n, Parent(target))
    requires Get(n, from) == Some(source) && !Under(from, dst) && source.fileType.File?
    requires target !in n || n[target].fileType.File?
    ensures Arrived(o, UpdateFile(o, n, from, source, target).nodes, source, target)
  {
    UpdateEffect(o, n, dst, from, source, target);
    WriteEffect(n, dst, from, source, target);
    hide KeepMtime, KeepExistingMtime, MtimesEqual, Home;
    var written := n[target := Node(File, source.bytes, None)];
    TimeIsKept(o, written, source, target);
    if target in n {
      TimeIsKept(o, n, source, target);
    }
  }

  lemma EntryArrives(o: Options, n: Nodes, dst: Path, from: Path, source: Node, target: Path)
    requires Thorough(o) && Home(n, dst) && Under(target, dst) && target != dst && IsDir(n, Parent(target))
    requires Get(n, from) == Some(source) && !Under(from, dst) && !source.fileType.Special?
    ensures Arrived(o, Step(o, n, from, source, target).nodes, source, target)
  {
    if source.fileType.Directory? {
      StepEffect(o, n, dst, from, source, target);
    } else {
      ClearEffect(o, n, dst, target, File);
      var c := ClearTarget(o, n, target, File);
      assert c.proceed;
      hide ClearTarget, UpdateFile, Home;
      assert !Under(Parent(target), target) && !Under(from, target);
      assert Get(c.run.nodes, Parent(target)) == Get(n, Parent(target)) && Get(c.run.nodes, from) == Get(n, from);
      FileArrives(o, c.run.nodes, dst, from, source, target);
    }
  }

  ghost predicate AllArrived(o: Options, m: Nodes, dst: Path, source: map<Path, Node>, done: set<Path>)
    requires done <= source.Keys
  {
    forall d :: d in done ==> Arrived(o, m, source[d], dst + d)
  }

  predicate Ordinary(source: map<Path, Node>) {
    forall rel :: rel in source ==> !source[rel].fileType.Special?
  }

  // What has arrived stays, and the next entry arrives.
  lemma NextArrives(o: Options, n: Nodes, src: Path, dst: Path, source: map<Path, Node>, todo: set<Path>)
    requires Thorough(o) && Ordinary(source) && Progress(o, n, src, dst, source, todo) && todo != {}
    requires AllArrived(o, n, dst, source, source.Keys - todo)
    ensures var rel := First(Forward, todo);
            var m := Step(o, n, src + rel, source[rel], dst + rel).nodes;
            AllArrived(o, m, dst, source, source.Keys - (todo - {rel}))
  {
    hide Step, Thorough, Home, IsFirst, Arrived, Closed, Collected;
    FirstIn(Forward, todo);
    var rel := First(Forward, todo);
    var m := Step(o, n, src + rel, source[rel], dst + rel).nodes;
    ProgressNext(o, n, src, dst, source, todo);
    EntryArrives(o, n, dst, src + rel, source[rel], dst + rel);
    forall d | d in source.Keys - (todo - {rel}) ensures Arrived(o, m, source[d], dst + d) {
      if d != rel {
        DoneIsOff(o, n, dst, source, todo, d);
        StaysArrived(o, n, m, source[d], dst + d);
      }
    }
  }

  lemma StaysArrived(o: Options, n: Nodes, m: Nodes, source: Node, target: Path)
    requires Arrived(o, n, source, target) && Get(n, target) == Get(m, target)
    ensures Arrived(o, m, source, target)
  {
  }

  lemma {:induction false} StepsArrive(o: Options, n: Nodes, src: Path, dst: Path, source: map<Path, Node>,
                                       todo: set<Path>)
    requires Thorough(o) && Ordinary(source) && Progress(o, n, src, dst, source, todo) && todo <= source.Keys
    requires AllArrived(o, n, dst, source, source.Keys - todo)
    ensures var r := Steps(o, n, src, dst, source, todo);
            && r.error.None? && Progress(o, r.nodes, src, dst, source, {})
               && AllArrived(o, r.nodes, dst, source, source.Keys)
            && SameOff(n, r.nodes, dst)
    decreases |todo|
  {
    hide Step, Progress, IsFirst, Thorough, AllArrived, Ordinary;
    if todo != {} {
      FirstIn(Forward, todo);
      var rel := First(Forward, todo);
      var one := Step(o, n, src + rel, source[rel], dst + rel);
      ProgressNext(o, n, src, dst, source, todo);
      NextArrives(o, n, src, dst, source, todo);
      StepsArrive(o, one.nodes, src, dst, source, todo - {rel});
      forall p | !Under(p, dst) ensures Get(one.nodes, p) == Get(n, p) {
        if Under(p, dst + rel) {
          UnderTrans(p, dst + rel, dst);
        }
      }
    } else {
      assert source.Keys - todo == source.Keys;
    }
  }

  /** `k` is `m` but for the times of the targets in `todo`. */
  ghost predicate OnlyTimes(m: Nodes, k: Nodes, dst: Path, todo: set<Path>) {
    && k.Keys == m.Keys
    && (forall p :: p in m ==> k[p].fileType == m[p].fileType && k[p].bytes == m[p].bytes)
    && (forall p :: p in m && (forall rel :: rel in todo ==> p != dst + rel) ==> k[p] == m[p])
  }

  lemma OneTime(o: Options, m: Nodes, k: Nodes, dst: Path, source: Node, rel: Path, todo: set<Path>)
    requires !o.dryRun && dst + rel in m && rel in todo
    ensures var one := KeepMtime(o, m, source, dst + rel);
            && one.error.None? && OnlyTimes(m, one.nodes, dst, {rel}) && TimeKept(o, one.nodes[dst + rel], source)
            && (OnlyTimes(one.nodes, k, dst, todo - {rel}) ==>
                OnlyTimes(m, k, dst, todo) && k[dst + rel] == one.nodes[dst + rel])
  {
    TimeIsKept(o, m, source, dst + rel);
    forall r | r != rel ensures dst + r != dst + rel {
      UnderRel(dst, r, rel);
    }
  }

  /** Setting directory times changes nothing else. */
  lemma {:induction false} DirTimesEffect(o: Options, m: Nodes, dst: Path, source: map<Path, Node>, todo: set<Path>)
    requires !o.dryRun && todo <= source.Keys && (forall rel :: rel in todo ==> dst + rel in m)
    ensures var r := DirTimes(o, m, dst, source, todo);
            && r.error.None? && OnlyTimes(m, r.nodes, dst, todo)
            && (forall rel :: rel in todo ==> TimeKept(o, r.nodes[dst + rel], source[rel]))
    decreases |todo|
  {
    hide IsFirst, TimeKept, KeepMtime;
    if todo != {} {
      FirstIn(Backward, todo);
      var rel := First(Backward, todo);
      var one := KeepMtime(o, m, source[rel], dst + rel);
      OneTime(o, m, DirTimes(o, one.nodes, dst, source, todo - {rel}).nodes, dst, source[rel], rel, todo);
      DirTimesEffect(o, one.nodes, dst, source, todo - {rel});
    }
  }

  /** The destination is a copy of the source: the same paths, and at each the same kind, bytes and kept time. */
  ghost predicate Mirrored(o: Options, m: Nodes, dst: Path, source: map<Path, Node>) {
    && IsDir(m, dst) && (forall q :: Under(dst, q) ==> q in m)
    && (forall rel :: rel != [] ==> (dst + rel in m <==> rel in source))
    && (forall rel :: rel in source ==>
        dst + rel in m && SameContent(m[dst + rel], source[rel]) && TimeKept(o, m[dst + rel], source[rel]))
  }

  /** Some unprotected entry the source lacks stands at or above `rel`. */
  ghost predicate Condemned(o: Options, source: map<Path, Node>, dest: map<Path, Node>, rel: Path) {
    exists d :: d in dest.Keys - source.Keys && Open(o, dest, d) && Under(rel, d)
  }

  /** What protection saves: entries that nothing unprotected stands above and no incoming file buries. */
  ghost function Spared(o: Options, source: map<Path, Node>, dest: map<Path, Node>): map<Path, Node> {
    map rel | rel in dest.Keys - source.Keys && !Condemned(o, source, dest, rel) && !Buries(source, source.Keys, rel) ::
      dest[rel]
  }

  /** Beside the source's entries, exactly those in `spared` are at the destination, as they were. */
  ghost predicate Others(m: Nodes, dst: Path, source: map<Path, Node>, spared: map<Path, Node>) {
    forall rel :: rel != [] && rel !in source ==> Get(m, dst + rel) == if rel in spared then Some(spared[rel]) else None
  }

  /** The destination is a copy of the source and holds nothing else but `spared`, unchanged. */
  ghost predicate MirroredBut(o: Options, m: Nodes, dst: Path, source: map<Path, Node>, spared: map<Path, Node>) {
    && IsDir(m, dst) && (forall q :: Under(dst, q) ==> q in m) && Others(m, dst, source, spared)
    && (forall rel :: rel in source ==>
        dst + rel in m && SameContent(m[dst + rel], source[rel]) && TimeKept(o, m[dst + rel], source[rel]))
  }

  // The delete pass, whenever it comes.
  lemma PassCleans(o: Options, m: Nodes, src: Path, dst: Path, source: map<Path, Node>, dest: map<Path, Node>)
    requires Thorough(o) && Apart(src, dst) && Collected(o, source) && Home(m, dst)
    requires [] !in dest && Listed(m, dst, dest, dest.Keys - source.Keys)
    ensures var r := DeletePass(o, m, dst, source, dest);
            && r.error.None? && Home(r.nodes, dst) && SameOff(m, r.nodes, dst)
            && (forall rel ::
                Get(r.nodes, dst + rel) == if Condemned(o, source, dest, rel) then None else Get(m, dst + rel))
            && (forall s :: s in source ==> Get(r.nodes, dst + s) == Get(m, dst + s))
            && (SourceThere(m, src, source) ==> SourceThere(r.nodes, src, source))
  {
    var todo := dest.Keys - source.Keys;
    assert !o.dryRun && o.maxDelete.None?;
    hide Deletes, Thorough, Home, Listed, Closed, Apart, Condemned;
    DeletesEffect(o, m, dst, dest, todo, 0);
    NoLimitNoError(o, m, dst, dest, todo, 0);
    var k := Deletes(o, m, dst, dest, todo, 0).nodes;
    SourceKept(src, dst, source, todo, m, k);
    forall p | !Under(p, dst) ensures Get(m, p) == Get(k, p) {
      forall rel ensures !Under(p, dst + rel) {
        UnderRel(dst, rel, []);
        if Under(p, dst + rel) {
          UnderTrans(p, dst + rel, dst);
        }
      }
      assert !Reached(dst, todo, p);
    }
    forall rel ensures Get(k, dst + rel) == if Condemned(o, source, dest, rel) then None else Get(m, dst + rel) {
      SurvivesExactly(o, m, dst, dest, todo, 0, dst + rel);
      if dst + rel in m {
        CondemnedIsDoomed(o, m, dst, source, dest, rel);
      }
      assert dst + rel in k ==> Get(k, dst + rel) == Get(m, dst + rel);
    }
  }

  // What stands above an entry that is there is there too.
  lemma CondemnedIsDoomed(o: Options, m: Nodes, dst: Path, source: map<Path, Node>, dest: map<Path, Node>, rel: Path)
    requires o.maxDelete.None? && Home(m, dst) && [] !in dest && dst + rel in m
    ensures var todo := dest.Keys - source.Keys;
            Doomed(o, dst, dest, Present(m, dst, todo), 0, dst + rel) <==> Condemned(o, source, dest, rel)
  {
    hide Open;
    var todo := dest.Keys - source.Keys;
    forall d | d in todo
      ensures Under(dst + rel, dst + d) <==> Under(rel, d)
      ensures Under(rel, d) ==> dst + d in m
    {
      UnderRel(dst, rel, d);
      UnderRel(dst, d, []);
      if Under(rel, d) && dst + d !in m {
        NothingBelow(m, dst, dst + d, dst + rel);
      }
    }
  }

  // The transfer loop, with deletion done or still to come.
  lemma MoveMirrors(o: Options, m: Nodes, src: Path, dst: Path, source: map<Path, Node>)
    requires Thorough(o) && Apart(src, dst) && Collected(o, source) && Ordinary(source) && Home(m, dst)
             && SourceThere(m, src, source)
    ensures var r := Steps(o, m, src, dst, source, source.Keys);
            && r.error.None? && Home(r.nodes, dst) && SourceThere(r.nodes, src, source)
            && AllArrived(o, r.nodes, dst, source, source.Keys) && SameOff(m, r.nodes, dst)
            && (forall d :: d !in source ==>
                  Get(r.nodes, dst + d) == if Buries(source, source.Keys, d) then None else Get(m, dst + d))
  {
    assert Progress(o, m, src, dst, source, source.Keys) && AllArrived(o, m, dst, source, source.Keys - source.Keys);
    var r := Steps(o, m, src, dst, source, source.Keys);
    assert !EffectiveDelete(o).NoDelete?;
    hide Steps, Thorough, EffectiveDelete, Home, AllArrived, Collected, Ordinary;
    StepsArrive(o, m, src, dst, source, source.Keys);
    forall d | d !in source
      ensures Get(r.nodes, dst + d) == if Buries(source, source.Keys, d) then None else Get(m, dst + d)
    {
      StepsOther(o, m, src, dst, source, source.Keys, d);
    }
  }

  // Arrived entries, the others settled, and the directory times to set: a mirror.
  lemma TimesMirror(o: Options, m: Nodes, dst: Path, source: map<Path, Node>, spared: map<Path, Node>)
    requires Thorough(o) && Closed(source) && Ordinary(source) && Home(m, dst)
    requires AllArrived(o, m, dst, source, source.Keys) && Others(m, dst, source, spared)
    ensures var r := DirTimes(o, m, dst, source, Dirs(o, source));
            r.error.None? && MirroredBut(o, r.nodes, dst, source, spared) && SameOff(m, r.nodes, dst)
  {
    hide DirTimes, TimeKept, SameContent, AllArrived, OnlyTimes, Home, Thorough, Others, Dirs, Closed;
    DirsAmong(o, source);
    var todo := Dirs(o, source);
    var k := DirTimes(o, m, dst, source, todo).nodes;
    AllThere(o, m, dst, source);
    ThoroughFacts(o);
    DirTimesEffect(o, m, dst, source, todo);
    HomeKept(m, k, dst, todo);
    OthersStay(m, k, dst, source, spared, todo);
    forall rel | rel in source
      ensures dst + rel in k && SameContent(k[dst + rel], source[rel]) && TimeKept(o, k[dst + rel], source[rel])
    {
      EntryMirrored(o, m, k, dst, source, rel);
    }
  }

  lemma DirsAmong(o: Options, source: map<Path, Node>)
    ensures Dirs(o, source) <= source.Keys
  {
  }

  lemma OthersStay(m: Nodes, k: Nodes, dst: Path, source: map<Path, Node>, spared: map<Path, Node>, todo: set<Path>)
    requires Others(m, dst, source, spared) && OnlyTimes(m, k, dst, todo) && todo <= source.Keys
    ensures Others(k, dst, source, spared)
  {
    forall rel | rel != [] && rel !in source ensures Get(k, dst + rel) == Get(m, dst + rel) {
      forall r | r in todo ensures dst + rel != dst + r {
        UnderRel(dst, rel, r);
      }
      assert dst + rel in m.Keys <==> dst + rel in k.Keys;
    }
  }

  lemma AllThere(o: Options, m: Nodes, dst: Path, source: map<Path, Node>)
    requires AllArrived(o, m, dst, source, source.Keys)
    ensures forall rel :: rel in source ==> dst + rel in m
  {
    forall rel | rel in source ensures dst + rel in m {
      assert Arrived(o, m, source[rel], dst + rel);
    }
  }

  lemma HomeKept(m: Nodes, k: Nodes, dst: Path, todo: set<Path>)
    requires Home(m, dst) && OnlyTimes(m, k, dst, todo)
    ensures IsDir(k, dst) && SameOff(m, k, dst) && m.Keys == k.Keys && forall q :: Under(dst, q) ==> q in k
  {
    forall p | !Under(p, dst) ensures Get(m, p) == Get(k, p) {
      forall r ensures p != dst + r {
        UnderRel(dst, r, []);
      }
    }
  }

  lemma EntryMirrored(o: Options, m: Nodes, k: Nodes, dst: Path, source: map<Path, Node>, rel: Path)
    requires Thorough(o) && Ordinary(source) && rel in source
    requires AllArrived(o, m, dst, source, source.Keys) && OnlyTimes(m, k, dst, Dirs(o, source))
    requires forall r :: r in Dirs(o, source) ==> dst + r in k && TimeKept(o, k[dst + r], source[r])
    ensures dst + rel in k && SameContent(k[dst + rel], source[rel]) && TimeKept(o, k[dst + rel], source[rel])
  {
    assert Arrived(o, m, source[rel], dst + rel);
    if rel !in Dirs(o, source) {
      forall r | r in Dirs(o, source) ensures dst + rel != dst + r {
        UnderRel(dst, rel, r);
      }
    }
  }

  /** A recursive listing misses nothing. */
  ghost predicate ListsAll(m: Nodes, dst: Path, dest: map<Path, Node>) {
    forall rel :: rel != [] && dst + rel in m ==> rel in dest
  }

  lemma DirsMirrorFirst(o: Options, n: Nodes, src: Path, dst: Path, source: map<Path, Node>, dest: map<Path, Node>)
    requires Thorough(o) && Start(o, n, src, dst, source, dest) && Ordinary(source) && DeletesFirst(o)
    requires ListsAll(Made(o, n, dst).nodes, dst, dest)
    ensures var r := SyncDirs(o, n, src, dst, source, dest);
            && r.error.None? && MirroredBut(o, r.nodes, dst, source, Spared(o, source, dest))
            && SameOff(Made(o, n, dst).nodes, r.nodes, dst)
  {
    hide Made, DeletePass, Steps, DirTimes, Home, Start, SyncDirs, AllArrived, Thorough, MirroredBut, Closed,
      EffectiveDelete, Others, Ordinary, Condemned, Buries, Spared;
    ThoroughFacts(o);
    StartFacts(o, n, src, dst, source, dest);
    MadeReal(o, n, src, dst, source, dest);
    var made := Made(o, n, dst);
    PassCleans(o, made.nodes, src, dst, source, dest);
    var early := DeletePass(o, made.nodes, dst, source, dest);
    MoveMirrors(o, early.nodes, src, dst, source);
    var moved := Steps(o, early.nodes, src, dst, source, source.Keys);
    OthersAre(o, made.nodes, early.nodes, moved.nodes, dst, source, dest);
    SyncDirsIs(o, n, src, dst, source, dest);
    TimesMirror(o, moved.nodes, dst, source, Spared(o, source, dest));
  }

  lemma DirsMirrorLast(o: Options, n: Nodes, src: Path, dst: Path, source: map<Path, Node>, dest: map<Path, Node>)
    requires Thorough(o) && Start(o, n, src, dst, source, dest) && Ordinary(source) && DeletesLast(o)
    requires ListsAll(Made(o, n, dst).nodes, dst, dest)
    ensures var r := SyncDirs(o, n, src, dst, source, dest);
            && r.error.None? && MirroredBut(o, r.nodes, dst, source, Spared(o, source, dest))
            && SameOff(Made(o, n, dst).nodes, r.nodes, dst)
  {
    hide Made, DeletePass, Steps, DirTimes, Home, Start, SyncDirs, AllArrived, Thorough, MirroredBut, Closed,
      EffectiveDelete, Others, Ordinary, Condemned, Buries, Spared;
    ThoroughFacts(o);
    StartFacts(o, n, src, dst, source, dest);
    LastNotFirst(o);
    MadeReal(o, n, src, dst, source, dest);
    var made := Made(o, n, dst);
    MoveMirrors(o, made.nodes, src, dst, source);
    var moved := Steps(o, made.nodes, src, dst, source, source.Keys);
    PassCleans(o, moved.nodes, src, dst, source, dest);
    var late := DeletePass(o, moved.nodes, dst, source, dest);
    AllStay(o, moved.nodes, late.nodes, dst, source);
    SyncDirsIs(o, n, src, dst, source, dest);
    OthersAre(o, made.nodes, moved.nodes, late.nodes, dst, source, dest);
    TimesMirror(o, late.nodes, dst, source, Spared(o, source, dest));
  }

  lemma ThoroughFacts(o: Options)
    requires Thorough(o)
    ensures !o.dryRun && o.recursive && (DeletesFirst(o) || DeletesLast(o)) && !(DeletesFirst(o) && DeletesLast(o))
  {
  }

  // Deletion and transfer, in either order, leave of the rest just what is spared.
  lemma OthersAre(o: Options, m: Nodes, k: Nodes, l: Nodes, dst: Path, source: map<Path, Node>, dest: map<Path, Node>)
    requires DestThere(m, dst, dest) && ListsAll(m, dst, dest)
    requires || (&& (forall d :: Get(k, dst + d) == if Condemned(o, source, dest, d) then None else Get(m, dst + d))
                 && (forall d :: d !in source ==>
                       Get(l, dst + d) == if Buries(source, source.Keys, d) then None else Get(k, dst + d)))
             || (&& (forall d :: d !in source ==>
                       Get(k, dst + d) == if Buries(source, source.Keys, d) then None else Get(m, dst + d))
                 && (forall d :: Get(l, dst + d) == if Condemned(o, source, dest, d) then None else Get(k, dst + d)))
    ensures Others(l, dst, source, Spared(o, source, dest))
  {
    hide Condemned, Buries;
    forall rel | rel != [] && rel !in source
      ensures Get(l, dst + rel) == if rel in Spared(o, source, dest) then Some(Spared(o, source, dest)[rel]) else None
    {
      assert Get(m, dst + rel) == if rel in dest then Some(dest[rel]) else None;
    }
  }

  lemma AllStay(o: Options, m: Nodes, k: Nodes, dst: Path, source: map<Path, Node>)
    requires AllArrived(o, m, dst, source, source.Keys) && forall s :: s in source ==>
               Get(k, dst + s) == Get(m, dst + s)
    ensures AllArrived(o, k, dst, source, source.Keys)
  {
    forall s | s in source ensures Arrived(o, k, source[s], dst + s) {
      StaysArrived(o, m, k, source[s], dst + s);
    }
  }

  /** Outside the destination nothing has changed, but for directories made on the way to it. */
  ghost predicate OnlyTheWay(n: Nodes, m: Nodes, dst: Path) {
    forall p :: !Under(p, dst) ==>
      Get(m, p) == Get(n, p) || (p !in n && Under(dst, p) && dst !in n && Get(m, p) == Some(EMPTY_DIR))
  }

  /**
   * The mirror theorem, with protections. Whatever stood at the destination and whenever deletion comes, the run
   * succeeds; the destination becomes a copy of the source beside exactly what protection saves, left as it was; and
   * nothing outside it changes.
   */
  lemma MirrorSpares(o: Options, n: Nodes, src: Path, dst: Path)
    requires Thorough(o) && Tree(n, []) && IsDir(n, src) && Apart(src, dst) && Ordinary(Entries(n, src, true))
    requires IsDir(n, dst) || (dst !in n && CheckParent(o, n, dst).None?)
    ensures var r := Sync(o, n, src, dst);
            var source := Entries(n, src, true);
            && r.error.None? && MirroredBut(o, r.nodes, dst, source, Spared(o, source, Listing(n, dst, true)))
            && OnlyTheWay(n, r.nodes, dst) && Entries(r.nodes, src, true) == source
  {
    var source, dest := Entries(n, src, o.recursive), Listing(n, dst, o.recursive);
    hide Sync, SyncDirs, Start, Thorough, MirroredBut, CheckParent, EffectiveDelete, Ordinary, Made, OnlyTheWay,
      Entries, Tree, Listing, Spared;
    ThoroughFacts(o);
    StartHolds(o, n, src, dst);
    ThereNoCheck(o, n, dst);
    SyncOfDirs(o, n, src, dst);
    ListingListsAll(o, n, dst);
    if DeletesFirst(o) {
      DirsMirrorFirst(o, n, src, dst, source, dest);
    } else {
      DirsMirrorLast(o, n, src, dst, source, dest);
    }
    OnWayOnly(o, n, Sync(o, n, src, dst).nodes, dst);
    SourceUntouched(n, Sync(o, n, src, dst).nodes, src, dst);
  }

  /** The mirror theorem: with nothing protected, the destination becomes a copy of the source, and nothing else. */
  lemma MirrorTheorem(o: Options, n: Nodes, src: Path, dst: Path)
    requires Plain(o) && Tree(n, []) && IsDir(n, src) && Apart(src, dst) && Ordinary(Entries(n, src, true))
    requires IsDir(n, dst) || (dst !in n && CheckParent(o, n, dst).None?)
    ensures var r := Sync(o, n, src, dst);
            && r.error.None? && Mirrored(o, r.nodes, dst, Entries(n, src, true))
            && OnlyTheWay(n, r.nodes, dst) && Entries(r.nodes, src, true) == Entries(n, src, true)
  {
    hide Sync, Thorough, MirroredBut, CheckParent, Ordinary, OnlyTheWay, Entries, Tree, Listing, Spared;
    MirrorSpares(o, n, src, dst);
    NothingSpared(o, Entries(n, src, true), Listing(n, dst, true));
    NothingBeside(o, Sync(o, n, src, dst).nodes, dst, Entries(n, src, true));
  }

  lemma NothingSpared(o: Options, source: map<Path, Node>, dest: map<Path, Node>)
    requires Plain(o)
    ensures Spared(o, source, dest) == map[]
  {
    hide Thorough, Buries;
    forall rel | rel in dest.Keys - source.Keys ensures Condemned(o, source, dest, rel) {
      assert Open(o, dest, rel) && Under(rel, rel);
    }
  }

  lemma NothingBeside(o: Options, m: Nodes, dst: Path, source: map<Path, Node>)
    requires MirroredBut(o, m, dst, source, map[])
    ensures Mirrored(o, m, dst, source)
  {
    hide SameContent, TimeKept;
    forall rel | rel != [] ensures dst + rel in m <==> rel in source {
      assert rel !in source ==> Get(m, dst + rel) == None;
    }
  }

  lemma OnWayOnly(o: Options, n: Nodes, m: Nodes, dst: Path)
    requires !o.dryRun && SameOff(Made(o, n, dst).nodes, m, dst)
    ensures OnlyTheWay(n, m, dst)
  {
    hide CreateDirAll;
    var k := Made(o, n, dst).nodes;
    forall p | !Under(p, dst)
      ensures Get(m, p) == Get(n, p) || (p !in n && Under(dst, p) && dst !in n && Get(m, p) == Some(EMPTY_DIR)) {
      assert Get(m, p) == Get(k, p);
    }
  }

  lemma SourceUntouched(n: Nodes, m: Nodes, src: Path, dst: Path)
    requires OnlyTheWay(n, m, dst) && Apart(src, dst)
    ensures Entries(m, src, true) == Entries(n, src, true)
  {
    hide Entries;
    forall rel ensures Get(m, src + rel) == Get(n, src + rel) {
      SourceOutside(src, dst, rel, src + rel);
      UnderRel(src, rel, []);
      if Under(dst, src + rel) {
        UnderTrans(dst, src + rel, src);
      }
    }
    var a, b := Entries(m, src, true), Entries(n, src, true);
    assert forall rel :: rel in a <==> rel in b by {
      assert forall rel :: Get(m, src + rel) == Get(n, src + rel);
    }
    assert a.Keys == b.Keys;
  }

  lemma ThereNoCheck(o: Options, n: Nodes, dst: Path)
    ensures dst in n ==> CheckParent(o, n, dst).None?
  {
  }

  lemma ListingListsAll(o: Options, n: Nodes, dst: Path)
    requires !o.dryRun && o.recursive && Tree(n, []) && (dst in n ==> n[dst].fileType.Directory?)
    ensures ListsAll(Made(o, n, dst).nodes, dst, Listing(n, dst, o.recursive))
  {
    hide CreateDirAll, Tree;
    MadeHome(n, dst);
    var m := Made(o, n, dst).nodes;
    forall rel | rel != [] && dst + rel in m ensures dst in n && dst + rel in n {
      UnderRel(dst, rel, []);
      assert Get(n, dst + rel) == Get(m, dst + rel);
      if dst !in n {
        NotBelowAbsent(n, dst, dst + rel);
      }
    }
  }

  lemma NotBelowAbsent(n: Nodes, a: Path, p: Path)
    requires Tree(n, []) && Under(p, a) && p in n
    ensures a in n
  {
    if a != p && a !in n {
      NothingBelow(n, [], a, p);
    }
  }
}
