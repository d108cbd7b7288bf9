/** When the report of a dry run is the report of the real one. */
module SyncPrediction {
  import opened Wire
  import opened MemoryFs
  import opened PathOrder
  import opened SyncSpec
  import opened SyncEffects
  import opened SyncProgress
  import opened SyncDeletes
  import opened SyncDryRun

  /** At every target still to come, the real filesystem `m` is as the untouched one, `n`. */
  ghost predicate Aligned(o: Options, n: Nodes, m: Nodes, dst: Path, source: map<Path, Node>, todo: set<Path>)
    requires todo <= source.Keys
  {
    forall rel :: rel in todo ==>
                    && Get(m, dst + rel) == Get(n, dst + rel)
                    && (EffectiveDelete(o).NoDelete? && !source[rel].fileType.Directory? ==> SameBelow(n, m, dst + rel))
  }

  lemma AlignedNext(o: Options, n: Nodes, m: Nodes, k: Nodes, dst: Path, source: map<Path, Node>, todo: set<Path>)
    requires todo <= source.Keys && Closed(source) && todo != {} && Aligned(o, n, m, dst, source, todo)
    requires var rel := First(Forward, todo);
             SameOff(m, k, dst + rel) && (source[rel].fileType.Directory? ==> SameBelow(m, k, dst + rel))
    ensures Aligned(o, n, k, dst, source, todo - {First(Forward, todo)})
  {
    hide EffectiveDelete;
    var rel := First(Forward, todo);
    forall r | r in todo - {rel}
      ensures Get(k, dst + r) == Get(m, dst + r)
      ensures !source[r].fileType.Directory? ==> SameBelow(m, k, dst + r)
    {
      UnderRel(dst, r, rel);
      if Under(r, rel) {
        AncestorInSource(source, r, rel);
      }
      if !source[r].fileType.Directory? {
        forall p | Under(p, dst + r) && p != dst + r ensures Get(m, p) == Get(k, p) {
          if Under(p, dst + rel) && !Under(r, rel) {
            Comparable(p, dst + rel, dst + r);
            Comparable(p, dst + r, dst + rel);
            UnderRel(dst, rel, r);
            AncestorInSource(source, rel, r);
          }
        }
      }
    }
  }

  lemma ChildrenSame(n: Nodes, m: Nodes, target: Path)
    requires SameBelow(n, m, target)
    ensures Children(n, target) == Children(m, target)
  {
    forall q | q != [] && Parent(q) == target ensures q in n <==> q in m {
      assert Under(q, target);
      assert Get(n, q) == Get(m, q);
    }
  }

  ghost predicate AnyMisjudged(o: Options, n: Nodes, dst: Path, source: map<Path, Node>, todo: set<Path>)
    requires todo <= source.Keys
  {
    exists rel :: rel in todo && Misjudged(o, n, source[rel], dst + rel)
  }

  lemma NextCompare(o: Options, n: Nodes, m: Nodes, src: Path, dst: Path, source: map<Path, Node>, todo: set<Path>)
    requires Progress(Real(o), m, src, dst, source, todo) && todo <= source.Keys && todo != {}
    requires SourceThere(n, src, source) && Aligned(o, n, m, dst, source, todo)
    ensures var rel := First(Forward, todo);
            var dry := Step(Dry(o), n, src + rel, source[rel], dst + rel);
            var step := Step(Real(o), m, src + rel, source[rel], dst + rel);
            && Compare(dry, step, Misjudged(o, n, source[rel], dst + rel)) && dry.nodes == n
            && Progress(Real(o), step.nodes, src, dst, source, todo - {rel})
            && Aligned(o, n, step.nodes, dst, source, todo - {rel})
  {
    var rel := First(Forward, todo);
    var from, target := src + rel, dst + rel;
    assert Closed(source) && Home(m, dst);
    assert Get(n, from) == Get(m, from) == Some(source[rel]);
    assert Get(m, target) == Get(n, target);
    assert EffectiveDelete(o).NoDelete? && !source[rel].fileType.Directory? ==> SameBelow(n, m, target);
    hide Step, Progress, Aligned, Misjudged, EffectiveDelete, Children, Dry, Real, Home, Closed, SourceThere;
    ProgressNext(Real(o), m, src, dst, source, todo);
    AlignedNext(o, n, m, Step(Real(o), m, from, source[rel], target).nodes, dst, source, todo);
    if EffectiveDelete(o).NoDelete? && !source[rel].fileType.Directory? {
      ChildrenSame(n, m, target);
    }
    StepCompare(o, n, m, dst, from, source[rel], target);
    StepDry(Dry(o), n, from, source[rel], target);
  }

  lemma {:induction false} StepsCompare(o: Options, n: Nodes, m: Nodes, src: Path, dst: Path, source: map<Path, Node>,
                                        todo: set<Path>)
    requires Progress(Real(o), m, src, dst, source, todo) && todo <= source.Keys
    requires SourceThere(n, src, source) && Aligned(o, n, m, dst, source, todo)
    ensures var r := Steps(Real(o), m, src, dst, source, todo);
            && Compare(Steps(Dry(o), n, src, dst, source, todo), r, AnyMisjudged(o, n, dst, source, todo))
            && Progress(Real(o), r.nodes, src, dst, source, {})
    decreases |todo|
  {
    assert todo == {} ==> Compare(Steps(Dry(o), n, src, dst, source, todo), Steps(Real(o), m, src, dst, source, todo),
                                  AnyMisjudged(o, n, dst, source, todo));
    hide Step, Steps, Progress, Aligned, Misjudged, AnyMisjudged, Dry, Real, SourceThere, IsFirst;
    if todo != {} {
      var rel := First(Forward, todo);
      var rest := todo - {rel};
      var dry := Step(Dry(o), n, src + rel, source[rel], dst + rel);
      var step := Step(Real(o), m, src + rel, source[rel], dst + rel);
      StepsTurn(Dry(o), n, src, dst, source, todo);
      StepsTurn(Real(o), m, src, dst, source, todo);
      NextCompare(o, n, m, src, dst, source, todo);
      StepsCompare(o, n, step.nodes, src, dst, source, rest);
      AnyMisjudgedNext(o, n, dst, source, todo, rel);
      ThenEither(dry, step, Steps(Dry(o), n, src, dst, source, rest),
                 Steps(Real(o), step.nodes, src, dst, source, rest),
                 Misjudged(o, n, source[rel], dst + rel), AnyMisjudged(o, n, dst, source, rest));
    }
  }

  lemma ThenEither(a: Run, b: Run, dry: Run, done: Run, first: bool, later: bool)
    requires Compare(a, b, first) && Compare(dry, done, later)
    ensures Compare(Then(a, dry), Then(b, done), first || later)
  {
  }

  lemma AnyMisjudgedNext(o: Options, n: Nodes, dst: Path, source: map<Path, Node>, todo: set<Path>, rel: Path)
    requires todo <= source.Keys && rel in todo
    ensures AnyMisjudged(o, n, dst, source, todo) <==>
            Misjudged(o, n, source[rel], dst + rel) || AnyMisjudged(o, n, dst, source, todo - {rel})
  {
    hide Misjudged;
  }

  lemma MtimeCompare(o: Options, n: Nodes, m: Nodes, source: Node, target: Path)
    requires target in m
    ensures Compare(KeepMtime(Dry(o), n, source, target), KeepMtime(Real(o), m, source, target), false)
    ensures KeepMtime(Dry(o), n, source, target).nodes == n
    ensures KeepMtime(Real(o), m, source, target).nodes.Keys == m.Keys
  {
  }

  lemma {:induction false} DirTimesCompare(o: Options, n: Nodes, m: Nodes, dst: Path, source: map<Path, Node>,
                                           todo: set<Path>)
    requires todo <= source.Keys && forall rel :: rel in todo ==> dst + rel in m
    ensures Compare(DirTimes(Dry(o), n, dst, source, todo), DirTimes(Real(o), m, dst, source, todo), false)
    decreases |todo|
  {
    hide KeepMtime, Then, Dry, Real;
    if todo != {} {
      var rel := First(Backward, todo);
      var rest := todo - {rel};
      var one := KeepMtime(Real(o), m, source[rel], dst + rel);
      MtimeCompare(o, n, m, source[rel], dst + rel);
      DirTimesCompare(o, n, one.nodes, dst, source, rest);
      ThenCompare(KeepMtime(Dry(o), n, source[rel], dst + rel), one, DirTimes(Dry(o), n, dst, source, rest),
                  DirTimes(Real(o), one.nodes, dst, source, rest), false);
    }
  }

  /** Two stretches that say the same: the same report, and the same error or none. */
  ghost predicate Same(dry: Run, done: Run) {
    dry.report == done.report && dry.error == done.error
  }

  /** The entries the limit keeps the pass from. */
  function Unmet(o: Options, dest: map<Path, Node>, todo: set<Path>, deleted: nat): set<Path>
    requires todo <= dest.Keys
  {
    set d | d in todo && !Met(o, dest, todo, deleted, d)
  }

  /** A pass at its limit that finds all but the entries in `gone`: the first one it still finds makes it stop. */
  ghost predicate Stops(o: Options, dest: map<Path, Node>, unmet: set<Path>, gone: set<Path>)
    requires unmet <= dest.Keys
  {
    unmet - gone != {} && Open(o, dest, First(Deepest, unmet - gone))
  }

  /**
   * A dry delete pass finds all of `todo`, the real one all but `gone`. They say the same when nothing is gone that
   * the limit lets the dry pass meet and, if the limit stops the dry pass, what is left stops the real one at once.
   */
  ghost predicate Foretold(o: Options, dest: map<Path, Node>, todo: set<Path>, gone: set<Path>, deleted: nat)
    requires todo <= dest.Keys
  {
    && (forall d :: d in todo && Met(o, dest, todo, deleted, d) ==> d !in gone)
    && (Unmet(o, dest, todo, deleted) != {} ==> Stops(o, dest, Unmet(o, dest, todo, deleted), gone))
  }

  lemma UnmetTurn(o: Options, dest: map<Path, Node>, todo: set<Path>, deleted: nat)
    requires todo <= dest.Keys && todo != {} && (o.maxDelete.Some? ==> deleted <= o.maxDelete.value)
    ensures var rel := First(Deepest, todo);
            if Open(o, dest, rel) && AtLimit(o, deleted) then Unmet(o, dest, todo, deleted) == todo
            else
              && Unmet(o, dest, todo, deleted) == Unmet(o, dest, todo - {rel}, deleted + Cost(o, dest, rel))
              && Met(o, dest, todo, deleted, rel)
  {
    hide Met, IsFirst, Open;
    FirstIn(Deepest, todo);
    var rel := First(Deepest, todo);
    forall d | d in todo
      ensures Open(o, dest, rel) && AtLimit(o, deleted) ==> !Met(o, dest, todo, deleted, d)
      ensures d != rel ==>
                (Met(o, dest, todo, deleted, d) <==> Met(o, dest, todo - {rel}, deleted + Cost(o, dest, rel), d))
    {
      MetTurn(o, dest, todo, deleted, d);
    }
    MetTurn(o, dest, todo, deleted, rel);
  }

  /** One turn of the loop: stopping, or meeting the first entry and going on. */
  lemma ForetoldTurn(o: Options, dest: map<Path, Node>, todo: set<Path>, gone: set<Path>, deleted: nat)
    requires todo <= dest.Keys && todo != {} && (o.maxDelete.Some? ==> deleted <= o.maxDelete.value)
    ensures var rel := First(Deepest, todo);
            if Open(o, dest, rel) && AtLimit(o, deleted) then
              Foretold(o, dest, todo, gone, deleted) <==> Stops(o, dest, todo, gone)
            else
              Foretold(o, dest, todo, gone, deleted) <==>
              rel !in gone && Foretold(o, dest, todo - {rel}, gone, deleted + Cost(o, dest, rel))
  {
    hide Met, IsFirst, Open, Stops;
    FirstIn(Deepest, todo);
    UnmetTurn(o, dest, todo, deleted);
    var rel := First(Deepest, todo);
    forall d | d in todo
      ensures Open(o, dest, rel) && AtLimit(o, deleted) ==> !Met(o, dest, todo, deleted, d)
      ensures d != rel ==>
                (Met(o, dest, todo, deleted, d) <==> Met(o, dest, todo - {rel}, deleted + Cost(o, dest, rel), d))
    {
      MetTurn(o, dest, todo, deleted, d);
    }
  }

  /** With nothing gone, a dry pass is always right. */
  lemma {:induction false} NothingGone(o: Options, dest: map<Path, Node>, todo: set<Path>, deleted: nat)
    requires todo <= dest.Keys && (o.maxDelete.Some? ==> deleted <= o.maxDelete.value)
    ensures Foretold(o, dest, todo, {}, deleted)
    decreases |todo|
  {
    hide Foretold, Met, IsFirst, Open;
    if todo == {} {
      NothingForetold(o, dest, {}, deleted);
    } else {
      FirstIn(Deepest, todo);
      ForetoldTurn(o, dest, todo, {}, deleted);
      assert todo - {} == todo;
      var rel := First(Deepest, todo);
      if !(Open(o, dest, rel) && AtLimit(o, deleted)) {
        CostIs(o, dest, rel, deleted);
        NothingGone(o, dest, todo - {rel}, deleted + Cost(o, dest, rel));
      }
    }
  }

  lemma NothingForetold(o: Options, dest: map<Path, Node>, gone: set<Path>, deleted: nat)
    ensures Foretold(o, dest, {}, gone, deleted)
  {
  }

  lemma CostIs(o: Options, dest: map<Path, Node>, rel: Path, deleted: nat)
    requires rel in dest && (o.maxDelete.Some? ==> deleted <= o.maxDelete.value)
    requires !(Open(o, dest, rel) && AtLimit(o, deleted))
    ensures o.maxDelete.Some? ==> deleted + Cost(o, dest, rel) <= o.maxDelete.value
    ensures Open(o, dest, rel) <==> Cost(o, dest, rel) == 1
  {
  }

  /** Without a limit, a dry pass is right exactly when nothing is gone. */
  lemma NoLimit(o: Options, dest: map<Path, Node>, todo: set<Path>, gone: set<Path>, deleted: nat)
    requires todo <= dest.Keys && o.maxDelete.None?
    ensures Foretold(o, dest, todo, gone, deleted) <==> todo !! gone
  {
    assert Unmet(o, dest, todo, deleted) == {};
  }

  // A delete pass speaks of what it was given and finds.
  lemma {:induction false} SpeaksOf(o: Options, m: Nodes, dst: Path, dest: map<Path, Node>, todo: set<Path>,
                                    deleted: nat)
    requires todo <= dest.Keys
    ensures forall a :: a in Deletes(o, m, dst, dest, todo, deleted).report ==> exists rel ::
              rel in todo && a.path == dst + rel
    decreases |todo|
  {
    hide DeleteOne, Deletes, IsFirst;
    if todo == {} {
      DeletesNone(o, m, dst, dest, deleted);
    } else {
      FirstIn(Deepest, todo);
      var rel := First(Deepest, todo);
      var one := DeleteOne(o, m, dst + rel, dest[rel].fileType);
      DeletesTurn(o, m, dst, dest, todo, deleted);
      SpeaksOf(o, m, dst, dest, todo - {rel}, deleted);
      SpeaksOf(o, one.nodes, dst, dest, todo - {rel}, deleted + 1);
      DeleteSpeaks(o, m, dst + rel, dest[rel].fileType);
    }
  }

  lemma DeleteSpeaks(o: Options, m: Nodes, path: Path, t: FileType)
    ensures forall a :: a in DeleteOne(o, m, path, t).report ==> a.path == path
  {
  }

  /** At its limit, a real pass stops in silence exactly when the first entry it finds is unprotected. */
  lemma {:induction false} StopsExactly(
      o: Options, m: Nodes, dst: Path, dest: map<Path, Node>, todo: set<Path>, gone: set<Path>, deleted: nat)
    requires todo <= dest.Keys && AtLimit(o, deleted) && forall rel :: rel in todo ==>
               (dst + rel in m <==> rel !in gone)
    ensures var r := Deletes(Real(o), m, dst, dest, todo, deleted);
            r.report == [] && r.error == Some(MaxDeleteExceeded(o.maxDelete.value)) <==> Stops(o, dest, todo, gone)
    decreases |todo|
  {
    hide DeleteOne, Deletes, Before;
    if todo == {} {
      DeletesNone(Real(o), m, dst, dest, deleted);
    } else {
      FirstIn(Deepest, todo);
      var rel := First(Deepest, todo);
      DeletesTurn(Real(o), m, dst, dest, todo, deleted);
      if rel in gone {
        StopsExactly(o, m, dst, dest, todo - {rel}, gone, deleted);
        assert todo - {rel} - gone == todo - gone;
      } else {
        assert IsFirst(Deepest, todo - gone, rel);
        FirstIsUnique(Deepest, todo - gone, rel);
      }
    }
  }

  /** A dry and a real delete pass say the same exactly when the dry one is foretold to. */
  lemma {:induction false} PassesAgree(
      o: Options, n: Nodes, m: Nodes, dst: Path, dest: map<Path, Node>, todo: set<Path>, gone: set<Path>, deleted: nat)
    requires todo <= dest.Keys && (o.maxDelete.Some? ==> deleted <= o.maxDelete.value)
    requires Tree(m, dst) && Listed(m, dst, dest, todo)
    requires forall rel :: rel in todo ==> dst + rel in n && (dst + rel in m <==> rel !in gone)
    ensures Same(Deletes(Dry(o), n, dst, dest, todo, deleted), Deletes(Real(o), m, dst, dest, todo, deleted)) <==>
            Foretold(o, dest, todo, gone, deleted)
    decreases |todo|
  {
    hide RemoveTree, DeleteOne, Tree, Listed, Then, Same, Foretold, Deletes, Dry, Real, IsFirst, Open, Stops;
    if todo == {} {
      NothingForetold(o, dest, gone, deleted);
      BothNothing(o, n, m, dst, dest, deleted);
    } else {
      FirstIn(Deepest, todo);
      ForetoldTurn(o, dest, todo, gone, deleted);
      var rel := First(Deepest, todo);
      var rest := todo - {rel};
      NextDelete(m, dst, dest, todo);
      if Open(o, dest, rel) && AtLimit(o, deleted) {
        StopsExactly(o, m, dst, dest, todo, gone, deleted);
        DryStops(o, n, m, dst, dest, todo, deleted);
      } else if rel in gone {
        GoneDiffers(o, n, m, dst, dest, todo, deleted);
      } else {
        CostIs(o, dest, rel, deleted);
        if Open(o, dest, rel) {
          DeleteCompare(o, n, m, dst, dest, todo);
          PassesAgree(o, n, RemoveTree(m, dst + rel), dst, dest, rest, gone, deleted + 1);
        } else {
          PassesAgree(o, n, m, dst, dest, rest, gone, deleted);
        }
        FoundAgrees(o, n, m, dst, dest, todo, deleted);
      }
    }
  }

  lemma BothNothing(o: Options, n: Nodes, m: Nodes, dst: Path, dest: map<Path, Node>, deleted: nat)
    ensures Same(Deletes(Dry(o), n, dst, dest, {}, deleted), Deletes(Real(o), m, dst, dest, {}, deleted))
  {
  }

  // The dry pass stops where it is.
  lemma DryStops(o: Options, n: Nodes, m: Nodes, dst: Path, dest: map<Path, Node>, todo: set<Path>, deleted: nat)
    requires todo <= dest.Keys && todo != {} && dst + First(Deepest, todo) in n
    requires Open(o, dest, First(Deepest, todo)) && AtLimit(o, deleted)
    ensures var r := Deletes(Real(o), m, dst, dest, todo, deleted);
            Same(Deletes(Dry(o), n, dst, dest, todo, deleted), r) <==>
            r.report == [] && r.error == Some(MaxDeleteExceeded(o.maxDelete.value))
  {
    hide Deletes, IsFirst;
    FirstIn(Deepest, todo);
    DeletesTurn(Dry(o), n, dst, dest, todo, deleted);
  }

  // The dry pass speaks of an entry that the real one passes over.
  lemma GoneDiffers(o: Options, n: Nodes, m: Nodes, dst: Path, dest: map<Path, Node>, todo: set<Path>, deleted: nat)
    requires todo <= dest.Keys && todo != {} && dst + First(Deepest, todo) in n && dst + First(Deepest, todo) !in m
    requires !(Open(o, dest, First(Deepest, todo)) && AtLimit(o, deleted))
    ensures !Same(Deletes(Dry(o), n, dst, dest, todo, deleted), Deletes(Real(o), m, dst, dest, todo, deleted))
  {
    hide DeleteOne, Deletes, IsFirst;
    FirstIn(Deepest, todo);
    var rel := First(Deepest, todo);
    DeletesTurn(Dry(o), n, dst, dest, todo, deleted);
    DeletesTurn(Real(o), m, dst, dest, todo, deleted);
    DryDelete(o, n, dst + rel, dest[rel].fileType);
    var dry, done := Deletes(Dry(o), n, dst, dest, todo, deleted), Deletes(Real(o), m, dst, dest, todo, deleted);
    assert dry.report != [] && dry.report[0].path == dst + rel;
    SpeaksOf(Real(o), m, dst, dest, todo - {rel}, deleted);
    if done.report != [] && done.report[0].path == dst + rel {
      assert done.report[0] in done.report;
      var r :| r in todo - {rel} && done.report[0].path == dst + r;
      UnderRel(dst, r, rel);
      assert false;
    }
  }

  // Both passes find the entry and deal with it alike.
  lemma FoundAgrees(o: Options, n: Nodes, m: Nodes, dst: Path, dest: map<Path, Node>, todo: set<Path>, deleted: nat)
    requires todo <= dest.Keys && todo != {} && Tree(m, dst) && Listed(m, dst, dest, todo)
    requires var rel := First(Deepest, todo);
             && dst + rel in n && dst + rel in m && !(Open(o, dest, rel) && AtLimit(o, deleted))
    ensures var rel := First(Deepest, todo);
            var (k, i) := if Open(o, dest, rel) then (RemoveTree(m, dst + rel), deleted + 1) else (m, deleted);
            Same(Deletes(Dry(o), n, dst, dest, todo, deleted), Deletes(Real(o), m, dst, dest, todo, deleted)) <==>
            Same(Deletes(Dry(o), n, dst, dest, todo - {rel}, i), Deletes(Real(o), k, dst, dest, todo - {rel}, i))
  {
    hide DeleteOne, Tree, Listed, RemoveTree, Deletes, IsFirst, Then, Same;
    FirstIn(Deepest, todo);
    var rel := First(Deepest, todo);
    var rest := todo - {rel};
    DeletesTurn(Dry(o), n, dst, dest, todo, deleted);
    DeletesTurn(Real(o), m, dst, dest, todo, deleted);
    if Open(o, dest, rel) {
      var k := RemoveTree(m, dst + rel);
      DeleteCompare(o, n, m, dst, dest, todo);
      ThenSame(DeleteOne(Dry(o), n, dst + rel, dest[rel].fileType),
               DeleteOne(Real(o), m, dst + rel, dest[rel].fileType),
               Deletes(Dry(o), n, dst, dest, rest, deleted + 1), Deletes(Real(o), k, dst, dest, rest, deleted + 1));
    } else {
      var a := Run(n, [ProtectDelete(dst + rel)], None);
      ThenSame(a, a.(nodes := m), Deletes(Dry(o), n, dst, dest, rest, deleted),
               Deletes(Real(o), m, dst, dest, rest, deleted));
    }
  }

  /** After stretches that say the same, two runs say the same exactly when what follows does. */
  lemma ThenSame(a: Run, b: Run, dry: Run, done: Run)
    requires Compare(a, b, false)
    ensures Same(Then(a, dry), Then(b, done)) <==> Same(dry, done)
  {
    var x, y := Then(a, dry).report, Then(b, done).report;
    assert x[|a.report|..] == dry.report && y[|a.report|..] == done.report;
  }

  lemma {:induction false} DryNoError(o: Options, n: Nodes, dst: Path, dest: map<Path, Node>, todo: set<Path>,
                                      deleted: nat)
    requires todo <= dest.Keys && o.maxDelete.None?
    ensures Deletes(Dry(o), n, dst, dest, todo, deleted).error.None?
    decreases |todo|
  {
    hide DeleteOne, Deletes, IsFirst, Dry;
    if todo == {} {
      DeletesNone(Dry(o), n, dst, dest, deleted);
    } else {
      FirstIn(Deepest, todo);
      var rel := First(Deepest, todo);
      DeletesTurn(Dry(o), n, dst, dest, todo, deleted);
      DryDelete(o, n, dst + rel, dest[rel].fileType);
      DryNoError(o, n, dst, dest, todo - {rel}, deleted);
      DryNoError(o, n, dst, dest, todo - {rel}, deleted + 1);
    }
  }

  lemma DryDelete(o: Options, n: Nodes, path: Path, t: FileType)
    ensures DeleteOne(Dry(o), n, path, t) == Run(n, [if t.Directory? then DeleteDir(path) else DeleteFile(path)], None)
  {
  }

  lemma DeleteCompare(o: Options, n: Nodes, m: Nodes, dst: Path, dest: map<Path, Node>, todo: set<Path>)
    requires todo <= dest.Keys && todo != {} && Tree(m, dst) && Listed(m, dst, dest, todo)
    requires dst + First(Deepest, todo) in m
    ensures var rel := First(Deepest, todo);
            var k := RemoveTree(m, dst + rel);
            && Compare(DeleteOne(Dry(o), n, dst + rel, dest[rel].fileType),
                       DeleteOne(Real(o), m, dst + rel, dest[rel].fileType), false)
            && DeleteOne(Dry(o), n, dst + rel, dest[rel].fileType).nodes == n
            && DeleteOne(Real(o), m, dst + rel, dest[rel].fileType).nodes == k
            && Tree(k, dst) && Listed(k, dst, dest, todo - {rel})
            && (forall r :: r in todo - {rel} ==> (dst + r in k <==> dst + r in m))
  {
    var rel := First(Deepest, todo);
    assert rel != [] && (m[dst + rel].fileType.Directory? <==> dest[rel].fileType.Directory?);
    hide DeleteOne, RemoveTree, Listed, Tree;
    UnderRel(dst, rel, []);
    DryDelete(o, n, dst + rel, dest[rel].fileType);
    DeleteOneEffect(Real(o), m, dst, dst + rel, dest[rel].fileType);
    RemoveTreeEffect(m, dst, dst + rel);
    ListedNext(m, dst, dest, todo);
  }
}
