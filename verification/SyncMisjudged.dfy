/** A misjudged file shows: a dry run then speaks more of the files on their way in than the real run does. */
module SyncMisjudged {
  import opened Wire
  import opened MemoryFs
  import opened PathOrder
  import opened SyncSpec
  import opened SyncEffects
  import opened SyncProgress
  import opened SyncDeletes
  import opened SyncDryRun
  import opened SyncPrediction

  /** How many actions are about the paths in `on`. */
  function Weight(report: seq<Action>, on: set<Path>): nat {
    if report == [] then 0
    else Weight(report[..|report| - 1], on) + if report[|report| - 1].path in on then 1 else 0
  }

  lemma {:induction false} WeightAdd(a: seq<Action>, b: seq<Action>, on: set<Path>)
    ensures Weight(a + b, on) == Weight(a, on) + Weight(b, on)
    decreases |b|
  {
    if b == [] {
      assert a + b == a;
    } else {
      WeightAdd(a, b[..|b| - 1], on);
      assert (a + b)[..|a + b| - 1] == a + b[..|b| - 1];
    }
  }

  lemma {:induction false} WeightAll(report: seq<Action>, on: set<Path>)
    ensures (forall a :: a in report ==> a.path in on) ==> Weight(report, on) == |report|
    ensures (forall a :: a in report ==> a.path !in on) ==> Weight(report, on) == 0
  {
    if report != [] {
      WeightAll(report[..|report| - 1], on);
      assert report[|report| - 1] in report;
    }
  }

  /** Where the source's files go. */
  function Targets(dst: Path, source: map<Path, Node>): set<Path> {
    set s | s in source && source[s].fileType.File? :: dst + s
  }

  // A file's step speaks of its target only.
  lemma FileSpeaks(o: Options, n: Nodes, from: Path, source: Node, target: Path)
    requires source.fileType.File?
    ensures forall a :: a in Step(o, n, from, source, target).report ==> a.path == target
  {
    hide NeedsUpdate, CopyFile, RemoveDirAll, RemoveFile, Children, EffectiveDelete, KeepMtime;
    MtimeSpeaks(o, n, source, target);
    var c := ClearTarget(o, n, target, File);
    MtimeSpeaks(o, c.run.nodes, source, target);
    UpdateSpeaks(o, c.run.nodes, from, source, target);
  }

  lemma MtimeSpeaks(o: Options, n: Nodes, source: Node, target: Path)
    ensures forall a :: a in KeepMtime(o, n, source, target).report ==> a.path == target
  {
  }

  lemma UpdateSpeaks(o: Options, n: Nodes, from: Path, source: Node, target: Path)
    ensures forall a :: a in UpdateFile(o, n, from, source, target).report ==> a.path == target
  {
    hide NeedsUpdate, CopyFile, KeepMtime;
    var len := |source.bytes|;
    var written := Act(o, n, if o.inPlace then WriteInPlace(target, len) else WriteFileAction(target, len),
                       CopyFile(n, from, target));
    MtimeSpeaks(o, written.nodes, source, target);
  }

  lemma NextWeighs(o: Options, n: Nodes, m: Nodes, src: Path, dst: Path, source: map<Path, Node>, todo: set<Path>)
    requires Progress(Real(o), m, src, dst, source, todo) && todo <= source.Keys && todo != {}
    requires SourceThere(n, src, source) && Aligned(o, n, m, dst, source, todo)
    ensures var rel := First(Forward, todo);
            var on := Targets(dst, source);
            var dry := Weight(Step(Dry(o), n, src + rel, source[rel], dst + rel).report, on);
            var done := Weight(Step(Real(o), m, src + rel, source[rel], dst + rel).report, on);
            dry >= done && (Misjudged(o, n, source[rel], dst + rel) ==> dry > done)
  {
    FirstIn(Forward, todo);
    var rel := First(Forward, todo);
    var on := Targets(dst, source);
    assert source[rel].fileType.File? ==> dst + rel in on;
    assert Misjudged(o, n, source[rel], dst + rel) ==> source[rel].fileType.File?;
    hide Step, Progress, Aligned, Misjudged, Dry, Real, SourceThere, IsFirst, Targets;
    NextCompare(o, n, m, src, dst, source, todo);
    if source[rel].fileType.File? {
      FileSpeaks(Dry(o), n, src + rel, source[rel], dst + rel);
      FileSpeaks(Real(o), m, src + rel, source[rel], dst + rel);
      WeightAll(Step(Dry(o), n, src + rel, source[rel], dst + rel).report, on);
      WeightAll(Step(Real(o), m, src + rel, source[rel], dst + rel).report, on);
    }
  }

  /** Over the whole transfer loop, the dry run says more of the files coming in if one of them is misjudged. */
  lemma {:induction false} StepsWeigh(
      o: Options, n: Nodes, m: Nodes, src: Path, dst: Path, source: map<Path, Node>, todo: set<Path>)
    requires Progress(Real(o), m, src, dst, source, todo) && todo <= source.Keys
    requires SourceThere(n, src, source) && Aligned(o, n, m, dst, source, todo)
    ensures var on := Targets(dst, source);
            var dry := Weight(Steps(Dry(o), n, src, dst, source, todo).report, on);
            var done := Weight(Steps(Real(o), m, src, dst, source, todo).report, on);
            dry >= done && (AnyMisjudged(o, n, dst, source, todo) ==> dry > done)
    decreases |todo|
  {
    assert todo == {} ==> !AnyMisjudged(o, n, dst, source, todo);
    assert todo == {} ==>
      Steps(Dry(o), n, src, dst, source, todo).report == Steps(Real(o), m, src, dst, source, todo).report;
    hide Step, Steps, Progress, Aligned, Misjudged, AnyMisjudged, Dry, Real, SourceThere, IsFirst, Targets, Weight;
    if todo != {} {
      var rel := First(Forward, todo);
      var rest := todo - {rel};
      var on := Targets(dst, source);
      var dry := Step(Dry(o), n, src + rel, source[rel], dst + rel);
      var step := Step(Real(o), m, src + rel, source[rel], dst + rel);
      StepsTurn(Dry(o), n, src, dst, source, todo);
      StepsTurn(Real(o), m, src, dst, source, todo);
      NextCompare(o, n, m, src, dst, source, todo);
      NextWeighs(o, n, m, src, dst, source, todo);
      StepsWeigh(o, n, step.nodes, src, dst, source, rest);
      AnyMisjudgedNext(o, n, dst, source, todo, rel);
      WeightAdd(dry.report, Steps(Dry(o), n, src, dst, source, rest).report, on);
      WeightAdd(step.report, Steps(Real(o), step.nodes, src, dst, source, rest).report, on);
    }
  }

  // Neither the delete pass nor the directory times speak of a file on its way in.
  lemma PassWeighsNothing(
      o: Options, m: Nodes, dst: Path, source: map<Path, Node>, dest: map<Path, Node>)
    ensures Weight(DeletePass(o, m, dst, source, dest).report, Targets(dst, source)) == 0
  {
    hide Deletes;
    var todo := dest.Keys - source.Keys;
    var r := DeletePass(o, m, dst, source, dest).report;
    SpeaksOf(o, m, dst, dest, todo, 0);
    forall a | a in r ensures a.path !in Targets(dst, source) {
      var rel :| rel in todo && a.path == dst + rel;
      NoTarget(dst, source, rel);
    }
    WeightAll(r, Targets(dst, source));
  }

  lemma NoTarget(dst: Path, source: map<Path, Node>, rel: Path)
    requires rel in source ==> !source[rel].fileType.File?
    ensures dst + rel !in Targets(dst, source)
  {
    if dst + rel in Targets(dst, source) {
      var s :| s in source && source[s].fileType.File? && dst + s == dst + rel;
      UnderRel(dst, s, rel);
      assert false;
    }
  }

  lemma {:induction false} DirTimesWeighNothing(
      o: Options, m: Nodes, dst: Path, source: map<Path, Node>, todo: set<Path>)
    requires todo <= source.Keys && forall rel :: rel in todo ==> source[rel].fileType.Directory?
    ensures Weight(DirTimes(o, m, dst, source, todo).report, Targets(dst, source)) == 0
    decreases |todo|
  {
    hide KeepMtime, IsFirst, Targets, Weight;
    WeightAll([], Targets(dst, source));
    if todo != {} {
      FirstIn(Backward, todo);
      var rel := First(Backward, todo);
      var one := KeepMtime(o, m, source[rel], dst + rel);
      NoTarget(dst, source, rel);
      MtimeSpeaks(o, m, source[rel], dst + rel);
      WeightAll(one.report, Targets(dst, source));
      DirTimesWeighNothing(o, one.nodes, dst, source, todo - {rel});
      WeightAdd(one.report, DirTimes(o, one.nodes, dst, source, todo - {rel}).report, Targets(dst, source));
    }
  }

  /** If the transfer loops differ on the files coming in, no later stretch can make up for it. */
  lemma NothingMakesUp(on: set<Path>, made: Run, made': Run, moved: Run, moved': Run, late: Run, late': Run, times: Run,
                       times': Run)
    requires Compare(made, made', false) && moved.error.None? && moved'.error.None?
    requires Weight(moved.report, on) > Weight(moved'.report, on)
    requires Weight(late.report, on) == Weight(late'.report, on) == Weight(times.report, on)
             == Weight(times'.report, on) == 0
    ensures Then(made, Then(moved, Then(late, times))).report != Then(made', Then(moved', Then(late', times'))).report
  {
    hide Weight;
    WeightAdd(late.report, times.report, on);
    WeightAdd(late'.report, times'.report, on);
    var tail, tail' := Then(late, times), Then(late', times');
    assert Weight(tail.report, on) == Weight(tail'.report, on) == 0;
    WeightAdd(moved.report, tail.report, on);
    WeightAdd(moved'.report, tail'.report, on);
    WeightAdd(made.report, moved.report + tail.report, on);
    WeightAdd(made'.report, moved'.report + tail'.report, on);
  }
}
