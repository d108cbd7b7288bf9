/** The dry-run theorem: exactly when its report is the report of the real run. */
module SyncDryRunTheorem {
  import opened Wire
  import opened MemoryFs
  import opened PathOrder
  import opened SyncSpec
  import opened SyncEffects
  import opened SyncProgress
  import opened SyncDeletes
  import opened SyncStages
  import opened SyncDryRun
  import opened SyncPrediction
  import opened SyncMisjudged

  /** The receiver entries the source lacks that lie below a place where the source has a file. */
  ghost function Buried(source: map<Path, Node>, dest: map<Path, Node>): set<Path> {
    set d | d in dest.Keys - source.Keys && Buries(source, source.Keys, d)
  }

  /** What a last delete pass will do is foretold, although the transfer has buried some of what there is to delete. */
  ghost predicate LateForetold(o: Options, source: map<Path, Node>, dest: map<Path, Node>) {
    Foretold(o, dest, dest.Keys - source.Keys, Buried(source, dest), 0)
  }

  /** The delete pass that comes first: the dry run says what the real one says, errors included. */
  lemma EarlyCompare(o: Options, n: Nodes, m: Nodes, src: Path, dst: Path, source: map<Path, Node>, dest: map<Path,
                     Node>)
    requires Apart(src, dst) && Closed(source) && DestThere(n, dst, dest) && DestThere(m, dst, dest) && Home(m, dst)
    ensures var d, r := DeletePass(Dry(o), n, dst, source, dest), DeletePass(Real(o), m, dst, source, dest);
            && d.report == r.report && d.error == r.error && d.nodes == n && (o.maxDelete.None? ==> d.error.None?)
            && Home(r.nodes, dst)
            && (forall s :: s in source ==> Get(r.nodes, dst + s) == Get(m, dst + s))
            && (SourceThere(m, src, source) ==> SourceThere(r.nodes, src, source))
  {
    var todo := dest.Keys - source.Keys;
    assert Listed(m, dst, dest, todo);
    hide Deletes, Dry, Real, Closed, Apart, Foretold;
    DeletesDry(Dry(o), n, dst, dest, todo, 0);
    NothingGone(o, dest, todo, 0);
    PassesAgree(o, n, m, dst, dest, todo, {}, 0);
    if o.maxDelete.None? {
      DryNoError(o, n, dst, dest, todo, 0);
    }
    DeletesEffect(Real(o), m, dst, dest, todo, 0);
    SourceKept(src, dst, source, todo, m, Deletes(Real(o), m, dst, dest, todo, 0).nodes);
  }

  /** The delete pass that comes last: what a file has buried is gone for the real run alone. */
  lemma LateCompare(o: Options, n: Nodes, m: Nodes, src: Path, dst: Path, source: map<Path, Node>, dest: map<Path,
                    Node>)
    requires Apart(src, dst) && Closed(source) && DestThere(n, dst, dest) && Home(m, dst)
    requires forall d :: d in dest.Keys - source.Keys ==>
                           Get(m, dst + d) == if Buries(source, source.Keys, d) then None else Some(dest[d])
    ensures var d, r := DeletePass(Dry(o), n, dst, source, dest), DeletePass(Real(o), m, dst, source, dest);
            && (Same(d, r) <==> LateForetold(o, source, dest)) && d.nodes == n
            && (o.maxDelete.None? ==> d.error.None? && r.error.None?)
            && (forall s :: s in source ==> Get(r.nodes, dst + s) == Get(m, dst + s))
  {
    hide Deletes, Dry, Real, Closed, Apart, Home, DestThere, Buries, Buried, Foretold, Listed, Pruned, Same;
    var todo := dest.Keys - source.Keys;
    LateListed(n, m, dst, source, dest);
    DeletesDry(Dry(o), n, dst, dest, todo, 0);
    PassesAgree(o, n, m, dst, dest, todo, Buried(source, dest), 0);
    if o.maxDelete.None? {
      DryNoError(o, n, dst, dest, todo, 0);
      NoLimitNoError(Real(o), m, dst, dest, todo, 0);
    }
    DeletesEffect(Real(o), m, dst, dest, todo, 0);
    SourceKept(src, dst, source, todo, m, Deletes(Real(o), m, dst, dest, todo, 0).nodes);
  }

  lemma LateListed(n: Nodes, m: Nodes, dst: Path, source: map<Path, Node>, dest: map<Path, Node>)
    requires DestThere(n, dst, dest) && Home(m, dst)
    requires forall d :: d in dest.Keys - source.Keys ==>
                           Get(m, dst + d) == if Buries(source, source.Keys, d) then None else Some(dest[d])
    ensures var todo := dest.Keys - source.Keys;
            && Tree(m, dst) && Listed(m, dst, dest, todo) && [] !in todo
            && forall d :: d in todo ==> dst + d in n && (dst + d in m <==> d !in Buried(source, dest))
  {
    hide Buries, Tree;
    forall d | d in dest.Keys - source.Keys ensures dst + d in n && (dst + d in m <==> d !in Buried(source, dest)) {
      assert Get(n, dst + d) == Some(dest[d]);
    }
  }

  lemma MadeCompare(o: Options, n: Nodes, src: Path, dst: Path, source: map<Path, Node>, dest: map<Path, Node>)
    requires Start(o, n, src, dst, source, dest)
    ensures var d, r := Made(Dry(o), n, dst), Made(Real(o), n, dst);
            && Compare(d, r, false) && d.nodes == n
            && Home(r.nodes, dst) && SourceThere(r.nodes, src, source) && DestThere(r.nodes, dst, dest)
            && SameBelow(n, r.nodes, dst)
  {
    assert Start(Real(o), n, src, dst, source, dest);
    hide CreateDirAll, Home, Start;
    MadeReal(Real(o), n, src, dst, source, dest);
  }

  // The transfer loop and the directory times, from a destination as good as untouched.
  lemma MoveCompare(o: Options, n: Nodes, m: Nodes, src: Path, dst: Path, source: map<Path, Node>, dest: map<Path,
                    Node>)
    requires Start(o, n, src, dst, source, dest) && Home(m, dst) && SourceThere(m, src, source)
    requires forall s :: s in source ==> Get(m, dst + s) == Get(n, dst + s)
    requires EffectiveDelete(o).NoDelete? ==> SameBelow(n, m, dst)
    ensures var d, r :=
            Steps(Dry(o), n, src, dst, source, source.Keys), Steps(Real(o), m, src, dst, source, source.Keys);
            && Compare(d, r, AnyMisjudged(o, n, dst, source, source.Keys)) && d.nodes == n
            && (AnyMisjudged(o, n, dst, source, source.Keys) ==>
                  Weight(d.report, Targets(dst, source)) > Weight(r.report, Targets(dst, source)))
            && Progress(Real(o), r.nodes, src, dst, source, {})
            && (forall rel :: rel in Dirs(o, source) ==> dst + rel in r.nodes)
            && (!EffectiveDelete(o).NoDelete? ==> forall d :: d !in source ==>
                  Get(r.nodes, dst + d) == if Buries(source, source.Keys, d) then None else Get(m, dst + d))
  {
    assert Progress(Real(o), m, src, dst, source, source.Keys);
    forall s | s in source && EffectiveDelete(o).NoDelete? ensures SameBelow(n, m, dst + s) {
      forall p | Under(p, dst + s) && p != dst + s ensures Get(n, p) == Get(m, p) {
        UnderRel(dst, s, []);
        UnderTrans(p, dst + s, dst);
        assert p != dst;
      }
    }
    assert Aligned(o, n, m, dst, source, source.Keys);
    var r := Steps(Real(o), m, src, dst, source, source.Keys);
    hide Aligned, Steps, EffectiveDelete, Home, AnyMisjudged, Collected, Weight, Targets;
    StepsCompare(o, n, m, src, dst, source, source.Keys);
    StepsWeigh(o, n, m, src, dst, source, source.Keys);
    StepsDry(Dry(o), n, src, dst, source, source.Keys);
    DirsStand(o, r.nodes, src, dst, source);
    if !EffectiveDelete(o).NoDelete? {
      forall d | d !in source
        ensures Get(r.nodes, dst + d) == if Buries(source, source.Keys, d) then None else Get(m, dst + d) {
        StepsOther(Real(o), m, src, dst, source, source.Keys, d);
      }
    }
  }

  lemma DirsStand(o: Options, m: Nodes, src: Path, dst: Path, source: map<Path, Node>)
    requires Progress(Real(o), m, src, dst, source, {})
    ensures forall rel :: rel in Dirs(o, source) ==> dst + rel in m
  {
    forall rel | rel in Dirs(o, source) ensures dst + rel in m {
      assert MakesDirs(Real(o));
      assert IsDir(m, dst + rel);
    }
  }

  lemma SameMode(o: Options)
    ensures DeletesFirst(Dry(o)) == DeletesFirst(Real(o)) == DeletesFirst(o)
    ensures DeletesLast(Dry(o)) == DeletesLast(Real(o)) == DeletesLast(o)
  {
    hide EffectiveDelete, Dry, Real;
  }

  lemma SameDirs(o: Options, p: Options, source: map<Path, Node>)
    requires MakesDirs(o) == MakesDirs(p)
    ensures Dirs(o, source) == Dirs(p, source) && Dirs(o, source) <= source.Keys
  {
  }

  /** Deletion first, or none: errors are foretold, and the report unless a file is misjudged. */
  lemma DirsCompareFirst(o: Options, n: Nodes, src: Path, dst: Path, source: map<Path, Node>, dest: map<Path, Node>)
    requires Start(o, n, src, dst, source, dest) && !DeletesLast(o)
    ensures var d, r := SyncDirs(Dry(o), n, src, dst, source, dest), SyncDirs(Real(o), n, src, dst, source, dest);
            && d.error == r.error
            && (d.report == r.report <==> d.error.Some? || !AnyMisjudged(o, n, dst, source, source.Keys))
            && (o.maxDelete.None? ==> d.error.None?)
  {
    hide Made, DeletePass, Steps, DirTimes, Home, Start, AnyMisjudged, EffectiveDelete, Dry, Real, SyncDirs, Progress,
      Then, SourceThere, DestThere, Dirs, Closed, Apart, DeletesFirst, DeletesLast, Buries, SameBelow;
    var made := (Made(Dry(o), n, dst), Made(Real(o), n, dst));
    StartFacts(o, n, src, dst, source, dest);
    MadeCompare(o, n, src, dst, source, dest);
    SameMode(o);
    SameDirs(o, Dry(o), source);
    SameDirs(o, Real(o), source);
    EarlyCompare(o, n, made.1.nodes, src, dst, source, dest);
    var early := if DeletesFirst(o) then
        (DeletePass(Dry(o), n, dst, source, dest), DeletePass(Real(o), made.1.nodes, dst, source, dest))
      else (Idle(n), Idle(made.1.nodes));
    StillThere(o, n, made.1.nodes, early.1.nodes, dst, source);
    MoveCompare(o, n, early.1.nodes, src, dst, source, dest);
    var moved :=
      (Steps(Dry(o), n, src, dst, source, source.Keys), Steps(Real(o), early.1.nodes, src, dst, source, source.Keys));
    SyncDirsIs(Dry(o), n, src, dst, source, dest);
    SyncDirsIs(Real(o), n, src, dst, source, dest);
    DirTimesCompare(o, n, moved.1.nodes, dst, source, Dirs(o, source));
    var times :=
      (DirTimes(Dry(o), n, dst, source, Dirs(o, source)),
       DirTimes(Real(o), moved.1.nodes, dst, source, Dirs(o, source)));
    var misjudged := AnyMisjudged(o, n, dst, source, source.Keys);
    AfterMove(made.0, made.1, early.0, early.1, moved.0, moved.1, Idle(n), Idle(moved.1.nodes), times.0, times.1,
              misjudged, false);
  }

  lemma StillThere(o: Options, n: Nodes, m: Nodes, k: Nodes, dst: Path, source: map<Path, Node>)
    requires SameBelow(n, m, dst) && (forall s :: s in source ==> s != [])
    requires forall s :: s in source ==> Get(k, dst + s) == Get(m, dst + s)
    ensures forall s :: s in source ==> Get(k, dst + s) == Get(n, dst + s)
  {
    forall s | s in source ensures Get(k, dst + s) == Get(n, dst + s) {
      UnderRel(dst, s, []);
    }
  }

  // Putting the five stretches of a run together.
  lemma AfterMove(made: Run, made': Run, early: Run, early': Run, moved: Run, moved': Run, late: Run, late': Run,
                  times: Run, times': Run, misjudged: bool, buried: bool)
    requires Compare(made, made', false) && early.report == early'.report && early.error == early'.error
    requires Compare(moved, moved', misjudged) && Compare(late, late', buried) && Compare(times, times', false)
    ensures var d := Then(made, Then(early, Then(moved, Then(late, times))));
            var r := Then(made', Then(early', Then(moved', Then(late', times'))));
            && d.error == r.error == early.error
            && (d.report == r.report <==> early.error.Some? || !(misjudged || buried))
    ensures Then(made, early).report == Then(made', early').report
            && Then(made, early).error == Then(made', early').error == early.error
  {
    var tail, tail' := Then(moved, Then(late, times)), Then(moved', Then(late', times'));
    assert Compare(tail, tail', misjudged || buried) by {
      ThenEither(late, late', times, times', buried, false);
      ThenEither(moved, moved', Then(late, times), Then(late', times'), misjudged, buried);
    }
  }

  // As above, where a limit on deletions may stop the last pass and no file is misjudged.
  lemma AfterMoveSame(made: Run, made': Run, moved: Run, moved': Run, late: Run, late': Run, times: Run, times': Run)
    requires Compare(made, made', false) && Compare(moved, moved', false) && Compare(times, times', false)
    ensures Same(Then(made, Then(moved, Then(late, times))), Then(made', Then(moved', Then(late', times')))) <==>
            Same(late, late')
  {
    ThenSame(made, made', Then(moved, Then(late, times)), Then(moved', Then(late', times')));
    ThenSame(moved, moved', Then(late, times), Then(late', times'));
    if Same(Then(late, times), Then(late', times')) && late.error.None? {
      assert (late.report + times.report)[..|late.report|] == late.report;
      assert (late'.report + times.report)[..|late'.report|] == late'.report;
    }
  }

  /** Deletion last: besides, the last delete pass has to be foretold. */
  lemma DirsCompareLast(o: Options, n: Nodes, src: Path, dst: Path, source: map<Path, Node>, dest: map<Path, Node>)
    requires Start(o, n, src, dst, source, dest) && DeletesLast(o)
    ensures var d, r := SyncDirs(Dry(o), n, src, dst, source, dest), SyncDirs(Real(o), n, src, dst, source, dest);
            && (Same(d, r) <==> !AnyMisjudged(o, n, dst, source, source.Keys) && LateForetold(o, source, dest))
            && (o.maxDelete.None? ==> d.error == r.error == None)
  {
    hide Made, DeletePass, Steps, DirTimes, Home, Start, AnyMisjudged, EffectiveDelete, Dry, Real, SyncDirs, Progress,
      Then, SourceThere, Dirs, Closed, Apart, DeletesLast, Buries, SameBelow, LateForetold, Weight, Targets, Same;
    var made := (Made(Dry(o), n, dst), Made(Real(o), n, dst));
    StartFacts(o, n, src, dst, source, dest);
    MadeCompare(o, n, src, dst, source, dest);
    SameMode(o);
    SameDirs(o, Dry(o), source);
    SameDirs(o, Real(o), source);
    LastNotFirst(o);
    StillThere(o, n, made.1.nodes, made.1.nodes, dst, source);
    MoveCompare(o, n, made.1.nodes, src, dst, source, dest);
    var moved :=
      (Steps(Dry(o), n, src, dst, source, source.Keys), Steps(Real(o), made.1.nodes, src, dst, source, source.Keys));
    ProgressHome(Real(o), moved.1.nodes, src, dst, source);
    LateCompare(o, n, moved.1.nodes, src, dst, source, dest);
    var late := (DeletePass(Dry(o), n, dst, source, dest), DeletePass(Real(o), moved.1.nodes, dst, source, dest));
    SyncDirsIs(Dry(o), n, src, dst, source, dest);
    SyncDirsIs(Real(o), n, src, dst, source, dest);
    DirsKept(o, moved.1.nodes, late.1.nodes, dst, source);
    DirTimesCompare(o, n, late.1.nodes, dst, source, Dirs(o, source));
    var times :=
      (DirTimes(Dry(o), n, dst, source, Dirs(o, source)),
       DirTimes(Real(o), late.1.nodes, dst, source, Dirs(o, source)));
    IdleFirst(made.0, moved.0, late.0, times.0);
    IdleFirst(made.1, moved.1, late.1, times.1);
    if AnyMisjudged(o, n, dst, source, source.Keys) {
      PassWeighsNothing(Dry(o), n, dst, source, dest);
      PassWeighsNothing(Real(o), moved.1.nodes, dst, source, dest);
      DirsAreDirs(o, source);
      DirTimesWeighNothing(Dry(o), n, dst, source, Dirs(o, source));
      DirTimesWeighNothing(Real(o), late.1.nodes, dst, source, Dirs(o, source));
      NothingMakesUp(Targets(dst, source), made.0, made.1, moved.0, moved.1, late.0, late.1, times.0, times.1);
      DifferentReports(SyncDirs(Dry(o), n, src, dst, source, dest), SyncDirs(Real(o), n, src, dst, source, dest));
    } else {
      AfterMoveSame(made.0, made.1, moved.0, moved.1, late.0, late.1, times.0, times.1);
    }
    NoErrors(made.0, moved.0, late.0, times.0);
    NoErrors(made.1, moved.1, late.1, times.1);
  }

  lemma IdleFirst(made: Run, moved: Run, late: Run, times: Run)
    ensures Then(made, Then(Idle(made.nodes), Then(moved, Then(late, times))))
            == Then(made, Then(moved, Then(late, times)))
  {
  }

  lemma NoErrors(made: Run, moved: Run, late: Run, times: Run)
    requires made.error.None? && moved.error.None? && times.error.None?
    ensures late.error.None? ==> Then(made, Then(moved, Then(late, times))).error.None?
  {
  }

  lemma DifferentReports(d: Run, r: Run)
    requires d.report != r.report
    ensures !Same(d, r)
  {
  }

  lemma DirsAreDirs(o: Options, source: map<Path, Node>)
    ensures forall rel :: rel in Dirs(o, source) ==> rel in source && source[rel].fileType.Directory?
  {
  }

  lemma DirsKept(o: Options, m: Nodes, k: Nodes, dst: Path, source: map<Path, Node>)
    requires forall rel :: rel in Dirs(o, source) ==> dst + rel in m
    requires forall s :: s in source ==> Get(k, dst + s) == Get(m, dst + s)
    ensures forall rel :: rel in Dirs(o, source) ==> dst + rel in k
  {
  }

  /** The destination is a directory, or one that may be made. */
  predicate CanStart(o: Options, n: Nodes, dst: Path) {
    (dst in n ==> n[dst].fileType.Directory?) && CheckParent(o, n, dst).None?
  }

  /**
   * The dry-run theorem, from a directory into a place neither inside it nor around it. Unless a delete pass comes
   * last, the dry run foretells the error, and the report exactly when no file of the source is misjudged or an
   * early delete pass fails. When a delete pass comes last, it foretells report and error exactly when no file is
   * misjudged and the last pass is foretold; a run that cannot start is always foretold.
   */
  lemma DryRunPredicts(o: Options, n: Nodes, src: Path, dst: Path)
    requires Tree(n, []) && IsDir(n, src) && Apart(src, dst)
    ensures var d, r := Sync(Dry(o), n, src, dst), Sync(Real(o), n, src, dst);
            var source, dest := Entries(n, src, o.recursive), Listing(n, dst, o.recursive);
            var misjudged := AnyMisjudged(o, n, dst, source, source.Keys);
            && (!DeletesLast(o) ==> d.error == r.error && (d.report == r.report <==> d.error.Some? || !misjudged))
            && (DeletesLast(o) ==>
                (Same(d, r) <==> !CanStart(o, n, dst) || (!misjudged && LateForetold(o, source, dest))))
            && (o.maxDelete.None? ==> d.error == r.error && (IsDir(n, dst) ==> d.error.None?))
  {
    hide Sync, SyncDirs, Entries, Listing, EffectiveDelete, AnyMisjudged, LateForetold, Dry, Real, DeletesLast, Start,
      Tree;
    var source, dest := Entries(n, src, o.recursive), Listing(n, dst, o.recursive);
    CheckSame(o, n, dst);
    SyncOfDirs(Dry(o), n, src, dst);
    SyncOfDirs(Real(o), n, src, dst);
    if CanStart(o, n, dst) {
      StartHolds(o, n, src, dst);
      if DeletesLast(o) {
        DirsCompareLast(o, n, src, dst, source, dest);
      } else {
        DirsCompareFirst(o, n, src, dst, source, dest);
      }
    }
  }

  /** Without a limit, a last pass is foretold exactly when nothing due for deletion is buried. */
  lemma LateForetoldExactly(o: Options, source: map<Path, Node>, dest: map<Path, Node>)
    requires o.maxDelete.None?
    ensures LateForetold(o, source, dest) <==> Buried(source, dest) == {}
  {
    hide Foretold, Buries;
    NoLimit(o, dest, dest.Keys - source.Keys, Buried(source, dest), 0);
  }

  lemma CheckSame(o: Options, n: Nodes, dst: Path)
    ensures CheckParent(Dry(o), n, dst) == CheckParent(Real(o), n, dst) == CheckParent(o, n, dst)
  {
  }

  /** A source holding one file, and a destination where an empty directory has the file's place. */
  function Shadowed(): (n: Nodes)
    ensures n.Keys == {[], [0], [0, 0], [1], [1, 0]}
    ensures n[[0, 0]] == Node(File, [7], None) && forall p :: p in n && p != [0, 0] ==> n[p] == EMPTY_DIR
  {
    map[[] := EMPTY_DIR, [0] := EMPTY_DIR, [0, 0] := Node(File, [7], None), [1] := EMPTY_DIR, [1, 0] := EMPTY_DIR]
  }

  lemma ShadowedMisjudged(o: Options)
    requires o.existingOnly && o.maxSize.None? && o.minSize.None?
    ensures AnyMisjudged(o, Shadowed(), [1], Entries(Shadowed(), [0], o.recursive),
                         Entries(Shadowed(), [0], o.recursive).Keys)
  {
    hide Shadowed, Entries, EffectiveDelete, Act;
    var n := Shadowed();
    var source := Entries(n, [0], o.recursive);
    assert [0] + [0] == [0, 0] && [1] + [0] == [1, 0];
    assert [0] in source && source[[0]] == n[[0, 0]];
    assert Children(n, [1, 0]) == {};
    assert Misjudged(o, n, source[[0]], [1] + [0]);
  }

  /**
   * The simplest failure: with existing-only set, the real run removes the directory and then has nothing to
   * update, while the dry run announces a write.
   */
  lemma DryRunMisleads(o: Options)
    requires o.existingOnly && o.maxSize.None? && o.minSize.None? && o.maxDelete.None?
    ensures Sync(Dry(o), Shadowed(), [0], [1]).report != Sync(Real(o), Shadowed(), [0], [1]).report
  {
    hide Sync, Dry, Real, LateForetold, AnyMisjudged, Shadowed, Entries;
    ShadowedMisjudged(o);
    var a: Path, b: Path := [0], [1];
    assert a[0] != b[0] && Apart(a, b);
    assert Parent([0, 0]) == [0] && Parent([1, 0]) == [1] && Parent([0]) == [] == Parent([1]);
    DryRunPredicts(o, Shadowed(), a, b);
  }
}
