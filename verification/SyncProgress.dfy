/** How far a real run has got: the invariant of the transfer loop. */
module SyncProgress {
  import opened Wire
  import opened MemoryFs
  import opened PathOrder
  import opened SyncSpec
  import opened SyncEffects

  lemma UnderRel(base: Path, a: Path, b: Path)
    ensures Under(base + a, base + b) <==> Under(a, b)
    ensures base + a == base + b <==> a == b
    ensures Under(base + a, base)
  {
    assert (base + a)[|base|..] == a && (base + b)[|base|..] == b;
    if Under(base + a, base + b) {
      assert base + b == (base + a)[..|base| + |b|];
      assert b == a[..|b|];
    }
  }

  lemma ParentOf(base: Path, rel: Path)
    requires rel != []
    ensures base + rel != [] && base + rel != base && Parent(base + rel) == base + Parent(rel)
  {
  }

  /** A source as collection leaves it: every entry's parent is there and is a directory. */
  ghost predicate Closed(source: map<Path, Node>) {
    forall rel :: rel in source ==>
                    rel != [] && (|rel| > 1 ==> Parent(rel) in source && source[Parent(rel)].fileType.Directory?)
  }

  lemma EntriesClosed(n: Nodes, root: Path, recursive: bool)
    requires Tree(n, root)
    ensures Closed(Entries(n, root, recursive))
  {
    hide Entries;
    var m := Entries(n, root, recursive);
    forall rel | rel in m && |rel| > 1 ensures Parent(rel) in m && m[Parent(rel)].fileType.Directory? {
      ParentOf(root, rel);
      assert Under(root + rel, root);
    }
  }

  lemma {:induction false} AncestorInSource(source: map<Path, Node>, s: Path, a: Path)
    requires Closed(source) && s in source && Under(s, a) && a != []
    ensures a in source
    ensures a != s ==> source[a].fileType.Directory?
    decreases |s|
  {
    if a != s {
      assert Under(Parent(s), a);
      AncestorInSource(source, Parent(s), a);
    }
  }

  ghost predicate SourceThere(n: Nodes, src: Path, source: map<Path, Node>) {
    forall rel :: rel in source ==> Get(n, src + rel) == Some(source[rel])
  }

  /** Neither tree holds the other. */
  ghost predicate Apart(src: Path, dst: Path) {
    !Under(src, dst) && !Under(dst, src)
  }

  lemma SourceOutside(src: Path, dst: Path, rel: Path, p: Path)
    requires Apart(src, dst)
    ensures !Under(src + rel, dst)
    ensures Under(p, dst) ==> p != src + rel
  {
    UnderRel(src, rel, []);
    if Under(src + rel, dst) {
      Comparable(src + rel, src, dst);
      Comparable(src + rel, dst, src);
    }
  }

  /** The transfer loop so far: what is done comes earlier in path order, and its directories stand. */
  ghost predicate Ready(o: Options, n: Nodes, dst: Path, source: map<Path, Node>, todo: set<Path>) {
    && todo <= source.Keys
    && (forall d, r :: d in source.Keys - todo && r in todo ==> LexLess(d, r))
    && (MakesDirs(o) ==> forall d :: d in source.Keys - todo && source[d].fileType.Directory? ==> IsDir(n, dst + d))
  }

  predicate MakesDirs(o: Options) {
    o.recursive || o.transferDirs
  }

  predicate IsDir(n: Nodes, p: Path) {
    p in n && n[p].fileType.Directory?
  }

  /** A source as collected: closed, and one level deep unless the run is recursive. */
  ghost predicate Collected(o: Options, source: map<Path, Node>) {
    Closed(source) && (o.recursive || forall rel :: rel in source ==> |rel| == 1)
  }

  // The next entry's parent is in place.
  lemma NextParent(o: Options, n: Nodes, dst: Path, source: map<Path, Node>, todo: set<Path>)
    requires Home(n, dst) && Collected(o, source) && Ready(o, n, dst, source, todo) && todo != {}
    ensures var target := dst + First(Forward, todo);
            target != dst && Under(target, dst) && IsDir(n, Parent(target))
  {
    var rel := First(Forward, todo);
    ParentOf(dst, rel);
    UnderRel(dst, rel, []);
    if |rel| > 1 {
      assert Under(rel, Parent(rel));
      AncestorFirst(Parent(rel), rel);
      LexTotal(Parent(rel), rel);
    } else {
      assert dst + Parent(rel) == dst;
    }
  }

  // What is done is never at or below what is next.
  lemma DoneIsOff(o: Options, n: Nodes, dst: Path, source: map<Path, Node>, todo: set<Path>, d: Path)
    requires Ready(o, n, dst, source, todo) && todo != {} && d in source.Keys - todo
    ensures !Under(dst + d, dst + First(Forward, todo))
  {
    var rel := First(Forward, todo);
    UnderRel(dst, d, rel);
    if Under(d, rel) {
      AncestorFirst(rel, d);
      LexTotal(d, rel);
    }
  }

  /** One step on, the rest is still ready: later steps never undo an ancestor. */
  lemma ReadyNext(o: Options, n: Nodes, m: Nodes, dst: Path, source: map<Path, Node>, todo: set<Path>)
    requires Ready(o, n, dst, source, todo) && todo != {}
    requires var rel := First(Forward, todo);
             SameOff(n, m, dst + rel) && (source[rel].fileType.Directory? && MakesDirs(o) ==> IsDir(m, dst + rel))
    ensures Ready(o, m, dst, source, todo - {First(Forward, todo)})
  {
    var rel := First(Forward, todo);
    var rest := todo - {rel};
    forall d, r | d in source.Keys - rest && r in rest ensures LexLess(d, r) {
      if d == rel {
        assert Before(Forward, rel, r);
      }
    }
    if MakesDirs(o) {
      forall d | d in source.Keys - rest && source[d].fileType.Directory? ensures IsDir(m, dst + d) {
        if d != rel {
          DoneIsOff(o, n, dst, source, todo, d);
          assert Get(m, dst + d) == Get(n, dst + d);
        }
      }
    }
  }

  /** What holds throughout the transfer loop of a real run. */
  ghost predicate Progress(o: Options, n: Nodes, src: Path, dst: Path, source: map<Path, Node>, todo: set<Path>) {
    && !o.dryRun && Apart(src, dst) && Collected(o, source)
    && Home(n, dst) && SourceThere(n, src, source) && Ready(o, n, dst, source, todo)
  }

  /** A step of the loop: no error, nothing off its target changed, and the invariant kept. */
  lemma ProgressNext(o: Options, n: Nodes, src: Path, dst: Path, source: map<Path, Node>, todo: set<Path>)
    requires Progress(o, n, src, dst, source, todo) && todo != {}
    ensures var rel := First(Forward, todo);
            var r := Step(o, n, src + rel, source[rel], dst + rel);
            && r.error.None? && Progress(o, r.nodes, src, dst, source, todo - {rel})
            && Under(dst + rel, dst) && dst + rel != dst && IsDir(n, Parent(dst + rel)) && !Under(src + rel, dst)
            && SameOff(n, r.nodes, dst + rel)
            && (source[rel].fileType.Directory? ==> SameBelow(n, r.nodes, dst + rel))
  {
    assert todo <= source.Keys;
    hide Step, Home, Ready, Collected, Closed;
    var rel := First(Forward, todo);
    var from, target := src + rel, dst + rel;
    NextParent(o, n, dst, source, todo);
    SourceOutside(src, dst, rel, from);
    var r := Step(o, n, from, source[rel], target);
    StepEffect(o, n, dst, from, source[rel], target);
    ReadyNext(o, n, r.nodes, dst, source, todo);
    forall s | s in source ensures Get(r.nodes, src + s) == Some(source[s]) {
      SourceOutside(src, dst, s, src + s);
      if Under(src + s, target) {
        UnderTrans(src + s, target, dst);
      }
    }
  }

  lemma UnderTrans(a: Path, b: Path, c: Path)
    requires Under(a, b) && Under(b, c)
    ensures Under(a, c)
  {
  }

  lemma StepsTurn(o: Options, n: Nodes, src: Path, dst: Path, source: map<Path, Node>, todo: set<Path>)
    requires todo <= source.Keys && todo != {}
    ensures var rel := First(Forward, todo);
            var one := Step(o, n, src + rel, source[rel], dst + rel);
            Steps(o, n, src, dst, source, todo) == Then(one, Steps(o, one.nodes, src, dst, source, todo - {rel}))
  {
    hide Step, Then, IsFirst;
  }

  /** A file to be transferred sits above the receiver entry `d`, so whatever is there goes. */
  ghost predicate Buries(source: map<Path, Node>, todo: set<Path>, d: Path)
    requires todo <= source.Keys
  {
    exists s :: s in todo && source[s].fileType.File? && Under(d, s)
  }

  // With deletion on, one step leaves an entry the source does not have alone, or buries it.
  lemma StepOther(o: Options, n: Nodes, src: Path, dst: Path, source: map<Path, Node>, todo: set<Path>, d: Path)
    requires Progress(o, n, src, dst, source, todo) && todo != {} && !EffectiveDelete(o).NoDelete? && d !in source
    ensures var rel := First(Forward, todo);
            var r := Step(o, n, src + rel, source[rel], dst + rel);
            Get(r.nodes, dst + d) == if source[rel].fileType.File? && Under(d, rel) then None else Get(n, dst + d)
  {
    FirstIn(Forward, todo);
    var rel := First(Forward, todo);
    assert Home(n, dst) && SourceThere(n, src, source);
    hide Progress, Home, SourceThere, UpdateFile, IsFirst;
    ProgressNext(o, n, src, dst, source, todo);
    UnderRel(dst, d, rel);
    if source[rel].fileType.File? && Under(d, rel) {
      FileBuries(o, n, dst, src + rel, source[rel], dst + rel, dst + d);
    }
  }

  lemma FileBuries(o: Options, n: Nodes, dst: Path, from: Path, source: Node, target: Path, p: Path)
    requires !o.dryRun && Home(n, dst) && Under(target, dst) && target != dst && IsDir(n, Parent(target))
    requires Get(n, from) == Some(source) && !Under(from, dst) && source.fileType.File?
    requires !EffectiveDelete(o).NoDelete? && Under(p, target) && p != target
    ensures p !in Step(o, n, from, source, target).nodes
  {
    FileEffect(o, n, dst, from, source, target);
    var m := Step(o, n, from, source, target).nodes;
    assert ClearTarget(o, n, target, File).proceed;
    hide Step, ClearTarget;
    NothingBelow(m, dst, target, p);
  }

  lemma {:induction false} StepsOther(o: Options, n: Nodes, src: Path, dst: Path, source: map<Path, Node>,
                                      todo: set<Path>, d: Path)
    requires Progress(o, n, src, dst, source, todo) && todo <= source.Keys && !EffectiveDelete(o).NoDelete?
             && d !in source
    ensures var r := Steps(o, n, src, dst, source, todo);
            Get(r.nodes, dst + d) == if Buries(source, todo, d) then None else Get(n, dst + d)
    decreases |todo|
  {
    hide Step, Progress, IsFirst, EffectiveDelete;
    if todo != {} {
      FirstIn(Forward, todo);
      var rel := First(Forward, todo);
      StepOther(o, n, src, dst, source, todo, d);
      ProgressNext(o, n, src, dst, source, todo);
      StepsOther(o, Step(o, n, src + rel, source[rel], dst + rel).nodes, src, dst, source, todo - {rel}, d);
      assert Buries(source, todo, d) <==>
        (source[rel].fileType.File? && Under(d, rel)) || Buries(source, todo - {rel}, d);
    }
  }

  // The destination as the transfer loop finds it: there, made if need be, and nothing else changed.
  lemma MadeHome(n: Nodes, dst: Path)
    requires Tree(n, []) && (dst in n ==> n[dst].fileType.Directory?)
    ensures var m := if dst in n then n else CreateDirAll(n, dst);
            && Home(m, dst) && SameBelow(n, m, dst)
            && (forall p :: p in n || !Under(dst, p) ==> Get(m, p) == Get(n, p))
  {
    hide CreateDirAll;
    var m := if dst in n then n else CreateDirAll(n, dst);
    forall p | Under(p, dst) && p != dst ensures Get(m, p) == Get(n, p) {
      assert !Under(dst, p);
    }
    forall q | Under(dst, q) ensures q in m {
      if q != dst && dst in n {
        AncestorsAreDirs(n, [], dst, q);
      }
    }
    assert Under(dst, dst);
    forall p | p in m && Under(p, dst) && p != dst ensures IsDir(m, Parent(p)) {
      assert p in n;
      assert Under(p, []);
      if dst !in n {
        NothingBelow(n, [], dst, p);
      }
    }
  }
}
