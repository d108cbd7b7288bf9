/** What single operations of a real run change, and what they leave alone. */
module SyncEffects {
  import opened Wire
  import opened MemoryFs
  import opened PathOrder
  import opened SyncSpec

  /** Nothing differs except at and below `target`. */
  ghost predicate SameOff(a: Nodes, b: Nodes, target: Path) {
    forall p :: !Under(p, target) ==> Get(a, p) == Get(b, p)
  }

  ghost predicate SameBelow(a: Nodes, b: Nodes, target: Path) {
    forall p :: Under(p, target) && p != target ==> Get(a, p) == Get(b, p)
  }

  /** A destination ready to be filled: a directory whose ancestors exist and whose subtree hangs together. */
  ghost predicate Home(n: Nodes, dst: Path) {
    && Tree(n, dst)
    && dst in n && n[dst].fileType.Directory?
    && forall q :: Under(dst, q) ==> q in n
  }

  lemma Comparable(p: Path, a: Path, b: Path)
    requires Under(p, a) && Under(p, b)
    ensures |a| <= |b| ==> Under(b, a)
  {
    if |a| <= |b| {
      assert a == p[..|a|] && b == p[..|b|];
    }
  }

  // With the parent in place, making directories adds the target or nothing.
  lemma ParentsThere(n: Nodes, dst: Path, target: Path)
    requires Home(n, dst) && Under(target, dst) && target != dst && Parent(target) in n
    ensures CreateDirAll(n, Parent(target)) == n
    ensures CreateDirAll(n, target) == if target in n then n else n[target := EMPTY_DIR]
  {
    hide CreateDirAll;
    forall q | Under(target, q) && q != target ensures q in n && Under(Parent(target), q) {
      assert q == target[..|q|];
      Comparable(target, q, dst);
      Comparable(target, dst, q);
      Comparable(target, q, Parent(target));
      if !Under(dst, q) && q != Parent(target) {
        AncestorsAreDirs(n, dst, Parent(target), q);
      }
    }
    assert Under(target, Parent(target));
    forall q | Under(Parent(target), q) ensures q in n {
      assert Under(target, q);
    }
  }

  lemma RemoveTreeEffect(n: Nodes, dst: Path, target: Path)
    requires Tree(n, dst) && Under(target, dst) && target != dst
    ensures Tree(RemoveTree(n, target), dst) && SameOff(n, RemoveTree(n, target), target)
    ensures Home(n, dst) ==> Home(RemoveTree(n, target), dst)
  {
    hide RemoveTree;
    var m := RemoveTree(n, target);
    forall p | p in m && Under(p, dst) && p != dst ensures Parent(p) in m {
      assert p in n;
      assert Under(Parent(p), target) ==> Under(p, target);
    }
  }

  /** Deleting a node, file or directory, is removing its subtree. */
  lemma DeleteOneEffect(o: Options, n: Nodes, dst: Path, path: Path, t: FileType)
    requires !o.dryRun && Tree(n, dst) && Under(path, dst) && path != dst
    requires path in n && (n[path].fileType.Directory? <==> t.Directory?)
    ensures var r := DeleteOne(o, n, path, t);
            && r.error.None? && r.nodes == RemoveTree(n, path)
            && r.report == [if t.Directory? then DeleteDir(path) else DeleteFile(path)]
  {
    RemovalIsTree(n, dst, path);
  }

  lemma RemovalIsTree(n: Nodes, dst: Path, path: Path)
    requires Tree(n, dst) && Under(path, dst) && path != dst && path in n
    ensures n[path].fileType.Directory? ==> RemoveDirAll(n, path) == Done(RemoveTree(n, path))
    ensures !n[path].fileType.Directory? ==> RemoveFile(n, path) == Done(RemoveTree(n, path))
  {
    assert Under(path, path);
    if !n[path].fileType.Directory? {
      forall p | p in n && Under(p, path) ensures p == path {
        if p != path {
          NothingBelow(n, dst, path, p);
        }
      }
      assert n - {path} == RemoveTree(n, path);
    }
  }

  /** Clearing the way removes the whole subtree, or nothing; it never fails inside the destination. */
  lemma ClearEffect(o: Options, n: Nodes, dst: Path, target: Path, t: FileType)
    requires !o.dryRun && Home(n, dst) && Under(target, dst) && target != dst
    ensures var c := ClearTarget(o, n, target, t);
            && c.run.error.None? && Home(c.run.nodes, dst) && SameOff(n, c.run.nodes, target)
            && (c.run.nodes == n || c.run.nodes == RemoveTree(n, target))
            && (c.proceed ==> target !in c.run.nodes || c.run.nodes[target].fileType == t)
            && (c.run.nodes != n ==> target !in c.run.nodes)
            && (!c.proceed ==> c.run.nodes == n && target in n && n[target].fileType.Directory? && !t.Directory?)
            && (target in n && n[target].fileType != t && c.proceed ==> target !in c.run.nodes)
            && (target !in n || n[target].fileType == t ==> c.run == Idle(n) && c.proceed)
  {
    RemoveTreeEffect(n, dst, target);
    assert Under(target, target);
    if target in n {
      RemovalIsTree(n, dst, target);
    }
  }

  // Setting one node below the destination, its parent being a directory there.
  lemma PutEffect(n: Nodes, dst: Path, target: Path, node: Node)
    requires Home(n, dst) && Under(target, dst) && target != dst
    requires Parent(target) in n && n[Parent(target)].fileType.Directory?
    requires node.fileType.Directory? || target !in n || !n[target].fileType.Directory?
    ensures Home(n[target := node], dst) && SameOff(n, n[target := node], target)
            && SameBelow(n, n[target := node], target)
  {
    var m := n[target := node];
    assert Under(target, target);
    forall p | p in m && Under(p, dst) && p != dst ensures Parent(p) in m && m[Parent(p)].fileType.Directory? {
      assert Parent(p) == target ==> Under(p, target) && p != target;
      if Parent(p) == target && !node.fileType.Directory? {
        NothingBelow(n, dst, target, p);
      }
    }
    forall q | Under(dst, q) ensures q != target {
    }
  }

  lemma MtimeEffect(o: Options, n: Nodes, dst: Path, source: Node, target: Path)
    requires !o.dryRun && Home(n, dst) && Under(target, dst) && target != dst && target in n
    ensures forall r :: r == KeepMtime(o, n, source, target) || r == KeepExistingMtime(o, n, source, target) ==>
              && r.error.None? && Home(r.nodes, dst) && SameOff(n, r.nodes, target) && SameBelow(n, r.nodes, target)
              && target in r.nodes && r.nodes[target].fileType == n[target].fileType
                 && r.nodes[target].bytes == n[target].bytes
  {
    assert Under(target, target);
    assert n == n[target := n[target]];
    if source.modified.Some? {
      var node := n[target].(modified := Some(source.modified.value));
      var m := n[target := node];
      forall p | p in m && Under(p, dst) && p != dst ensures Parent(p) in m && m[Parent(p)].fileType.Directory? {
      }
    }
  }

  /**
   * One transfer step of a real run, its target's parent being in place: it cannot fail, touches nothing
   * off its target, and for a directory nothing below it either.
   */
  lemma StepEffect(o: Options, n: Nodes, dst: Path, from: Path, source: Node, target: Path)
    requires !o.dryRun && Home(n, dst) && Under(target, dst) && target != dst
    requires Parent(target) in n && n[Parent(target)].fileType.Directory?
    requires Get(n, from) == Some(source) && !Under(from, dst)
    ensures var r := Step(o, n, from, source, target);
            && r.error.None? && Home(r.nodes, dst) && SameOff(n, r.nodes, target)
            && (source.fileType.Directory? ==> SameBelow(n, r.nodes, target))
            && (source.fileType.Directory? && (o.recursive || o.transferDirs) ==>
                  target in r.nodes && r.nodes[target].fileType.Directory?)
  {
    match source.fileType
    case Special =>
    case Directory =>
      if o.recursive || o.transferDirs {
        DirectoryEffect(o, n, dst, from, source, target);
      }
    case File =>
      FileEffect(o, n, dst, from, source, target);
  }

  lemma DirectoryEffect(o: Options, n: Nodes, dst: Path, from: Path, source: Node, target: Path)
    requires !o.dryRun && Home(n, dst) && Under(target, dst) && target != dst
    requires Parent(target) in n && n[Parent(target)].fileType.Directory?
    requires source.fileType.Directory? && (o.recursive || o.transferDirs)
    ensures var r := Step(o, n, from, source, target);
            && r.error.None? && Home(r.nodes, dst) && SameOff(n, r.nodes, target) && SameBelow(n, r.nodes, target)
            && target in r.nodes && r.nodes[target].fileType.Directory?
            && (target in n && n[target].fileType.Directory? ==> r.nodes == n && r.report == [CreateDir(target)])
  {
    hide ClearTarget, CreateDirAll;
    ClearEffect(o, n, dst, target, Directory);
    var m := ClearTarget(o, n, target, Directory).run.nodes;
    assert !Under(Parent(target), target);
    assert Get(m, Parent(target)) == Get(n, Parent(target));
    ParentsThere(m, dst, target);
    PutEffect(m, dst, target, if target in m then m[target] else EMPTY_DIR);
    assert target in m ==> m[target := m[target]] == m;
    if target !in m {
      forall p | Under(p, target) && p != target ensures Get(n, p) == Get(m, p) {
        NothingBelow(m, dst, target, p);
        if target !in n || !n[target].fileType.Directory? {
          NothingBelow(n, dst, target, p);
        }
      }
    }
  }

  lemma FileEffect(o: Options, n: Nodes, dst: Path, from: Path, source: Node, target: Path)
    requires !o.dryRun && Home(n, dst) && Under(target, dst) && target != dst
    requires Parent(target) in n && n[Parent(target)].fileType.Directory?
    requires Get(n, from) == Some(source) && !Under(from, dst) && source.fileType.File?
    ensures var r := Step(o, n, from, source, target);
            && r.error.None? && Home(r.nodes, dst) && SameOff(n, r.nodes, target)
            && (ClearTarget(o, n, target, File).proceed ==> target !in r.nodes || r.nodes[target].fileType.File?)
  {
    hide ClearTarget, UpdateFile;
    ClearEffect(o, n, dst, target, File);
    var c := ClearTarget(o, n, target, File);
    var m := c.run.nodes;
    assert !Under(Parent(target), target) && !Under(from, target);
    assert Get(m, Parent(target)) == Get(n, Parent(target)) && Get(m, from) == Get(n, from);
    if c.proceed {
      UpdateEffect(o, m, dst, from, source, target);
    }
  }

  lemma UpdateEffect(o: Options, n: Nodes, dst: Path, from: Path, source: Node, target: Path)
    requires !o.dryRun && Home(n, dst) && Under(target, dst) && target != dst
    requires Parent(target) in n && n[Parent(target)].fileType.Directory?
    requires Get(n, from) == Some(source) && !Under(from, dst) && source.fileType.File?
    requires target !in n || n[target].fileType.File?
    ensures var r := UpdateFile(o, n, from, source, target);
            && r.error.None? && Home(r.nodes, dst) && SameOff(n, r.nodes, target)
            && NeedsUpdate(o, n, from, source, target).Done?
            && (NeedsUpdate(o, n, from, source, target) == Done(true) ==>
                  target in r.nodes && r.nodes[target].fileType.File? && r.nodes[target].bytes == source.bytes)
            && (NeedsUpdate(o, n, from, source, target) == Done(false) ==>
                  (target in r.nodes <==> target in n)
                  && (target in n ==> r.nodes[target].fileType.File? && r.nodes[target].bytes == n[target].bytes))
  {
    hide KeepMtime, KeepExistingMtime, MtimesEqual;
    if target in n {
      MtimeEffect(o, n, dst, source, target);
    } else {
      assert KeepExistingMtime(o, n, source, target) == Idle(n) by { AbsentMtime(o, n, source, target); }
    }
    WriteEffect(n, dst, from, source, target);
    var m := CopyFile(n, from, target).value;
    MtimeEffect(o, m, dst, source, target);
  }

  lemma AbsentMtime(o: Options, n: Nodes, source: Node, target: Path)
    requires target !in n
    ensures KeepExistingMtime(o, n, source, target) == Idle(n)
  {
  }

  lemma WriteEffect(n: Nodes, dst: Path, from: Path, source: Node, target: Path)
    requires Home(n, dst) && Under(target, dst) && target != dst
    requires Parent(target) in n && n[Parent(target)].fileType.Directory?
    requires Get(n, from) == Some(source) && source.fileType.File?
    requires target !in n || n[target].fileType.File?
    ensures CopyFile(n, from, target) == Done(n[target := Node(File, source.bytes, None)])
    ensures Home(n[target := Node(File, source.bytes, None)], dst)
    ensures SameOff(n, n[target := Node(File, source.bytes, None)], target)
  {
    ParentsThere(n, dst, target);
    PutEffect(n, dst, target, Node(File, source.bytes, None));
  }
}
