/** A run over directories, stage by stage. */
module SyncStages {
  import opened Wire
  import opened MemoryFs
  import opened PathOrder
  import opened SyncSpec
  import opened SyncEffects
  import opened SyncProgress
  import opened SyncDeletes

  ghost predicate DestThere(n: Nodes, dst: Path, dest: map<Path, Node>) {
    forall rel :: rel in dest ==> rel != [] && Get(n, dst + rel) == Some(dest[rel])
  }

  /** What a run over directories starts from. */
  ghost predicate Start(o: Options, n: Nodes, src: Path, dst: Path, source: map<Path, Node>, dest: map<Path, Node>) {
    && Tree(n, []) && (dst in n ==> n[dst].fileType.Directory?)
    && Apart(src, dst) && Collected(o, source) && SourceThere(n, src, source) && DestThere(n, dst, dest)
  }

  function Made(o: Options, n: Nodes, dst: Path): Run {
    if dst in n then Idle(n) else Act(o, n, CreateDir(dst), Done(CreateDirAll(n, dst)))
  }

  function Listing(n: Nodes, dst: Path, recursive: bool): map<Path, Node> {
    if dst in n then Entries(n, dst, recursive) else map[]
  }

  lemma StartFacts(o: Options, n: Nodes, src: Path, dst: Path, source: map<Path, Node>, dest: map<Path, Node>)
    requires Start(o, n, src, dst, source, dest)
    ensures Closed(source) && Apart(src, dst) && DestThere(n, dst, dest) && forall s :: s in source ==> s != []
    ensures EffectiveDelete(o).NoDelete? ==> !DeletesFirst(o) && !DeletesLast(o)
  {
  }

  lemma LastNotFirst(o: Options)
    requires DeletesLast(o)
    ensures !DeletesFirst(o) && !EffectiveDelete(o).NoDelete?
  {
  }

  lemma ProgressHome(o: Options, m: Nodes, src: Path, dst: Path, source: map<Path, Node>)
    requires Progress(o, m, src, dst, source, {})
    ensures Home(m, dst)
  {
  }

  // Making the destination, in a real run.
  lemma MadeReal(o: Options, n: Nodes, src: Path, dst: Path, source: map<Path, Node>, dest: map<Path, Node>)
    requires Start(o, n, src, dst, source, dest) && !o.dryRun
    ensures var r := Made(o, n, dst);
            && r.error.None? && Home(r.nodes, dst) && SourceThere(r.nodes, src, source) && DestThere(r.nodes, dst, dest)
            && SameBelow(n, r.nodes, dst)
            && (forall p :: p in n || !Under(dst, p) ==> Get(r.nodes, p) == Get(n, p))
  {
    hide CreateDirAll, Home, Tree, Collected, Apart;
    MadeHome(n, dst);
    var m := Made(o, n, dst).nodes;
    forall rel | rel in dest ensures Get(m, dst + rel) == Some(dest[rel]) {
      UnderRel(dst, rel, []);
    }
    forall s | s in source ensures Get(m, src + s) == Some(source[s]) {
      assert src + s in n;
    }
  }

  // A delete pass over entries the source lacks leaves all that the source has.
  lemma SourceKept(src: Path, dst: Path, source: map<Path, Node>, todo: set<Path>, m: Nodes, k: Nodes)
    requires Apart(src, dst) && Closed(source) && todo !! source.Keys && [] !in todo && Pruned(m, k, dst, todo)
    ensures forall s :: s in source ==> Get(k, dst + s) == Get(m, dst + s)
    ensures SourceThere(m, src, source) ==> SourceThere(k, src, source)
  {
    forall s | s in source ensures Get(k, dst + s) == Get(m, dst + s) {
      if rel :| rel in todo && Under(dst + s, dst + rel) {
        UnderRel(dst, s, rel);
        AncestorInSource(source, s, rel);
      }
      assert !Reached(dst, todo, dst + s);
    }
    forall s | s in source ensures Get(k, src + s) == Get(m, src + s) {
      forall rel ensures !Under(src + s, dst + rel) {
        SourceOutside(src, dst, s, src + s);
        UnderRel(dst, rel, []);
      }
      assert !Reached(dst, todo, src + s);
    }
  }

  /**
   * A delete pass of a real run is safe, whatever the limit and the protections: it only removes, it leaves every
   * path the source has and everything outside the destination, and it deletes no more often than it may.
   */
  lemma PassIsSafe(o: Options, m: Nodes, src: Path, dst: Path, source: map<Path, Node>, dest: map<Path, Node>, p: Path)
    requires !o.dryRun && Apart(src, dst) && Closed(source) && Home(m, dst) && DestThere(m, dst, dest)
    ensures var r := DeletePass(o, m, dst, source, dest);
            && (p in r.nodes ==> Get(r.nodes, p) == Get(m, p))
            && (!Under(p, dst) ==> Get(r.nodes, p) == Get(m, p))
            && (forall s :: s in source ==> Get(r.nodes, dst + s) == Get(m, dst + s))
            && (o.maxDelete.Some? ==> Deletions(r.report) <= o.maxDelete.value)
  {
    var todo := dest.Keys - source.Keys;
    assert Listed(m, dst, dest, todo);
    hide Deletes, Deletions, Closed, Apart, Home, Listed;
    DeletesEffect(o, m, dst, dest, todo, 0);
    SourceKept(src, dst, source, todo, m, Deletes(o, m, dst, dest, todo, 0).nodes);
    if o.maxDelete.Some? {
      DeletesWithinLimit(o, m, dst, dest, todo, 0);
    }
    if !Under(p, dst) {
      forall rel ensures !Under(p, dst + rel) {
        UnderRel(dst, rel, []);
        if Under(p, dst + rel) {
          UnderTrans(p, dst + rel, dst);
        }
      }
      assert !Reached(dst, todo, p);
    }
  }

  // A run whose transfer loop does not fail.
  lemma SyncDirsIs(o: Options, n: Nodes, src: Path, dst: Path, source: map<Path, Node>, dest: map<Path, Node>)
    requires var made := Made(o, n, dst);
             var early := if DeletesFirst(o) then DeletePass(o, made.nodes, dst, source, dest) else Idle(made.nodes);
             early.error.None? ==> Steps(o, early.nodes, src, dst, source, source.Keys).error.None?
    ensures var made := Made(o, n, dst);
            var early := if DeletesFirst(o) then DeletePass(o, made.nodes, dst, source, dest) else Idle(made.nodes);
            var moved := Steps(o, early.nodes, src, dst, source, source.Keys);
            var late := if DeletesLast(o) then DeletePass(o, moved.nodes, dst, source, dest) else Idle(moved.nodes);
            && (early.error.Some? ==> SyncDirs(o, n, src, dst, source, dest) == Then(made, early))
            && (early.error.None? ==>
                  SyncDirs(o, n, src, dst, source, dest)
                  == Then(made,
                          Then(early, Then(moved, Then(late, DirTimes(o, late.nodes, dst, source, Dirs(o, source)))))))
  {
    hide DeletePass, Steps, DirTimes, StoppedInTransfer, CreateDirAll, EffectiveDelete, Dirs;
  }

  lemma SyncOfDirs(o: Options, n: Nodes, src: Path, dst: Path)
    requires IsDir(n, src) && Apart(src, dst)
    ensures Sync(o, n, src, dst) ==
            if dst in n && !n[dst].fileType.Directory? then Fail(n, NotDirectory(dst))
            else
              match CheckParent(o, n, dst)
              case Some(e) => Fail(n, e)
              case None => SyncDirs(o, n, src, dst, Entries(n, src, o.recursive), Listing(n, dst, o.recursive))
  {
    hide SyncDirs, Entries;
  }

  lemma StartHolds(o: Options, n: Nodes, src: Path, dst: Path)
    requires Tree(n, []) && IsDir(n, src) && Apart(src, dst) && (dst in n ==> n[dst].fileType.Directory?)
    ensures Start(o, n, src, dst, Entries(n, src, o.recursive), Listing(n, dst, o.recursive))
  {
    hide Collected, Tree;
    EntriesCollected(o, n, src);
  }

  lemma EntriesCollected(o: Options, n: Nodes, src: Path)
    requires Tree(n, [])
    ensures Collected(o, Entries(n, src, o.recursive))
  {
    assert Tree(n, src) by {
      assert forall p :: Under(p, src) && p != src ==> Under(p, []) && p != [];
    }
    EntriesClosed(n, src, o.recursive);
  }
}
