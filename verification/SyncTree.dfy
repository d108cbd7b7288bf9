/** A whole run: deletions, the transfer loop and directory times over a filesystem that changes under them. */
module SyncTree {
  import opened Seqs
  import opened Wire
  import opened MemoryFs
  import opened PathOrder
  import opened SyncSpec
  import opened SyncProgress
  import opened SyncDeletes
  import opened SyncStages
  import opened SyncReceiver
  import opened SyncEngine

  function Paths(es: seq<ReceiverEntry>): set<Path> {
    set e | e in es :: e.path
  }

  /** The entries of a map, each once. */
  ghost predicate Enumerates(m: map<Path, Node>, es: seq<ReceiverEntry>) {
    && (forall i :: 0 <= i < |es| ==> es[i].path in m && es[i].fileType == m[es[i].path].fileType)
    && (forall i, j :: 0 <= i < j < |es| ==> es[i].path != es[j].path)
    && Paths(es) == m.Keys
  }

  method InOrder(m: map<Path, Node>) returns (es: seq<ReceiverEntry>)
    ensures Enumerates(m, es)
  {
    hide IsFirst;
    es := [];
    var pending := m.Keys;
    while pending != {}
      invariant pending <= m.Keys && Paths(es) == m.Keys - pending
      invariant forall i :: 0 <= i < |es| ==> es[i].path in m && es[i].fileType == m[es[i].path].fileType
      invariant forall i, j :: 0 <= i < j < |es| ==> es[i].path != es[j].path
      decreases pending
    {
      FirstExists(Forward, pending);
      var p :| IsFirst(Forward, pending, p);
      IsFirstIn(Forward, pending, p);
      var e := ReceiverEntry(p, m[p].fileType);
      assert forall i :: 0 <= i < |es| ==> es[i] in es && es[i].path in Paths(es);
      assert Paths(es + [e]) == Paths(es) + {p};
      es := es + [e];
      pending := pending - {p};
    }
  }

  function AsSource(es: seq<ReceiverEntry>): (s: seq<SourceEntry>)
    ensures |s| == |es|
    ensures forall i :: 0 <= i < |es| ==> s[i] == SourceEntry(Components(es[i].path), es[i].fileType)
  {
    seq(|es|, i requires 0 <= i < |es| => SourceEntry(Components(es[i].path), es[i].fileType))
  }

  function Components(p: Path): (c: seq<Component>)
    ensures Names(c) == p && Outside !in c
  {
    if p == [] then [] else [Normal(p[0])] + Components(p[1..])
  }

  lemma {:induction false} SeesPaths(st: State, index: nat, es: seq<ReceiverEntry>)
    requires forall e :: e in es ==> e.path != []
    ensures var (seen, ok) := SeeAll(st, index, AsSource(es));
            && ok && seen.sources == st.sources + Paths(es)
            && seen.deleteMode == st.deleteMode && seen.finalSeen == st.finalSeen
    decreases |es|
  {
    hide Names, Components;
    if es == [] {
      assert Paths(es) == {};
    } else {
      assert AsSource(es)[1..] == AsSource(es[1..]);
      assert es[0] in es;
      assert Normalizes(AsSource(es)[0].path);
      SeesPaths(See(st, index, AsSource(es)[0]), index + 1, es[1..]);
      assert Paths(es) == {es[0].path} + Paths(es[1..]);
    }
  }

  function PlannedPaths(plan: seq<Decision>): set<Path> {
    set d | d in plan :: d.path
  }

  /** A plan that deals with `todo` as the specification visits it. */
  ghost predicate Plans(o: Options, dest: map<Path, Node>, todo: set<Path>, plan: seq<Decision>) {
    && todo <= dest.Keys && todo == PlannedPaths(plan)
    && (forall i :: 0 <= i < |plan| ==>
          plan[i].path in dest
            && plan[i] == Decide(o.protect, ReceiverEntry(plan[i].path, dest[plan[i].path].fileType)))
    && (forall i, j :: 0 <= i < j < |plan| ==> Before(Deepest, plan[i].path, plan[j].path))
  }

  lemma PlanHead(o: Options, dest: map<Path, Node>, todo: set<Path>, plan: seq<Decision>)
    requires Plans(o, dest, todo, plan) && plan != []
    ensures todo != {} && plan[0].path == First(Deepest, todo)
    ensures Plans(o, dest, todo - {plan[0].path}, plan[1..])
  {
    var p := plan[0].path;
    assert plan[0] in plan;
    forall q | q in todo && q != p ensures Before(Deepest, p, q) {
      var d :| d in plan && d.path == q;
    }
    FirstIsUnique(Deepest, todo, p);
    var rest := plan[1..];
    forall d | d in rest ensures d.path != p {
      var i :| 0 <= i < |rest| && rest[i] == d;
      assert Before(Deepest, p, plan[i + 1].path);
      BeforeTotal(Deepest, p, plan[i + 1].path);
    }
    assert plan == [plan[0]] + rest;
    assert todo - {p} == PlannedPaths(rest);
  }

  lemma DistinctCount(s: seq<ReceiverEntry>, i: nat, j: nat)
    requires i < j < |s| && s[i] == s[j]
    ensures multiset(s)[s[i]] >= 2
  {
    assert s == s[..j] + s[j..];
    assert s[i] in s[..j] && s[j] in s[j..];
  }

  lemma {:induction false} EachOnce(es: seq<ReceiverEntry>, e: ReceiverEntry)
    requires forall i, j :: 0 <= i < j < |es| ==> es[i] != es[j]
    ensures multiset(es)[e] <= 1
    decreases |es|
  {
    if es != [] {
      var front, last := es[..|es| - 1], es[|es| - 1];
      assert es == front + [last];
      EachOnce(front, e);
      assert last !in front;
    }
  }

  lemma {:induction false} AbsentWithin(st: State, es: seq<ReceiverEntry>)
    ensures multiset(Absent(st, es)) <= multiset(es)
    decreases |es|
  {
    if es != [] {
      AbsentWithin(st, es[..|es| - 1]);
      assert es == es[..|es| - 1] + [es[|es| - 1]];
    }
  }

  lemma ListedAt(dest: map<Path, Node>, es: seq<ReceiverEntry>, p: Path) returns (e: ReceiverEntry)
    requires Enumerates(dest, es) && p in dest
    ensures e in es && e.path == p
  {
    assert p in Paths(es);
    e :| e in es && e.path == p;
  }

  lemma EntryOf(dest: map<Path, Node>, es: seq<ReceiverEntry>, e: ReceiverEntry)
    requires Enumerates(dest, es) && e in es
    ensures e.path in dest && e.fileType == dest[e.path].fileType
  {
  }

  // What is ordered for deletion: only entries the source lacks, no path twice.
  lemma OrderedEntry(st: State, source: map<Path, Node>, dest: map<Path, Node>, es: seq<ReceiverEntry>,
                     order: seq<ReceiverEntry>, i: nat)
    requires Enumerates(dest, es) && st.sources == source.Keys && multiset(order) == multiset(Absent(st, es))
             && i < |order|
    ensures order[i] in es && order[i].path !in source && order[i].path in dest
            && order[i].fileType == dest[order[i].path].fileType
  {
    hide Enumerates, Absent;
    assert order[i] in multiset(order);
    AbsentExactly(st, es, order[i]);
    EntryOf(dest, es, order[i]);
  }

  lemma OrderedTwo(st: State, source: map<Path, Node>, dest: map<Path, Node>, es: seq<ReceiverEntry>,
                   order: seq<ReceiverEntry>, i: nat, j: nat)
    requires Enumerates(dest, es) && st.sources == source.Keys && multiset(order) == multiset(Absent(st, es))
    requires Ordered(order) && i < j < |order|
    ensures Before(Deepest, order[i].path, order[j].path)
  {
    AllOnce(dest, es, order[i]);
    hide Enumerates, Absent, Before;
    OrderedEntry(st, source, dest, es, order, i);
    OrderedEntry(st, source, dest, es, order, j);
    if order[i] == order[j] {
      DistinctCount(order, i, j);
      AbsentWithin(st, es);
      assert false;
    }
    BeforeTotal(Deepest, order[i].path, order[j].path);
  }

  lemma AllOnce(dest: map<Path, Node>, es: seq<ReceiverEntry>, e: ReceiverEntry)
    requires Enumerates(dest, es)
    ensures multiset(es)[e] <= 1
  {
    EachOnce(es, e);
  }

  lemma PathPlanned(o: Options, st: State, source: map<Path, Node>, dest: map<Path, Node>, es: seq<ReceiverEntry>,
                    order: seq<ReceiverEntry>, plan: seq<Decision>, p: Path)
    requires Enumerates(dest, es) && st.sources == source.Keys && p in dest && p !in source
    requires multiset(order) == multiset(Absent(st, es)) && plan == Decisions(o.protect, order)
    ensures p in PlannedPaths(plan)
  {
    hide Enumerates, Absent, Decide;
    var e := ListedAt(dest, es, p);
    AbsentExactly(st, es, e);
    assert e in multiset(order);
    var i :| 0 <= i < |order| && order[i] == e;
    DecidePath(o, e);
    assert plan[i] in plan;
  }

  lemma PlanOrder(st: State, protect: (Path, FileType) -> bool, es: seq<ReceiverEntry>, plan: seq<Decision>)
    returns (order: seq<ReceiverEntry>)
    requires DeleteReady(st) && IsPlan(st, protect, es, plan)
    ensures multiset(order) == multiset(Absent(st, es)) && Ordered(order) && plan == Decisions(protect, order)
    ensures |order| == |plan| && forall i :: 0 <= i < |order| ==> plan[i] == Decide(protect, order[i])
  {
    hide Absent, Ordered, Decide;
    order :| multiset(order) == multiset(Absent(st, es)) && Ordered(order) && plan == Decisions(protect, order);
  }

  // The receiver's plan over an enumerated destination visits what the specification visits, in its order.
  lemma PlanIsSpec(o: Options, st: State, source: map<Path, Node>, dest: map<Path, Node>, es: seq<ReceiverEntry>,
                   plan: seq<Decision>)
    requires Enumerates(dest, es) && st.sources == source.Keys && DeleteReady(st) && IsPlan(st, o.protect, es, plan)
    ensures Plans(o, dest, dest.Keys - source.Keys, plan)
  {
    hide Enumerates, IsPlan, DeleteReady, Absent, Before, Decide, Ordered, Decisions;
    var order := PlanOrder(st, o.protect, es, plan);
    forall i | 0 <= i < |plan|
      ensures plan[i].path in dest && plan[i].path !in source
      ensures plan[i] == Decide(o.protect, ReceiverEntry(plan[i].path, dest[plan[i].path].fileType))
    {
      DecidePath(o, order[i]);
      OrderedEntry(st, source, dest, es, order, i);
    }
    forall i, j | 0 <= i < j < |plan| ensures Before(Deepest, plan[i].path, plan[j].path) {
      DecidePath(o, order[i]);
      DecidePath(o, order[j]);
      OrderedTwo(st, source, dest, es, order, i, j);
    }
    forall p | p in dest && p !in source ensures p in PlannedPaths(plan) {
      PathPlanned(o, st, source, dest, es, order, plan, p);
    }
    assert PlannedPaths(plan) == dest.Keys - source.Keys;
  }

  lemma DecidePath(o: Options, e: ReceiverEntry)
    ensures Decide(o.protect, e).path == e.path
  {
  }

  // A stretch done, then one more turn, then the rest.
  lemma ThenNext(n: Nodes, done: seq<Action>, one: Run, rest: Run)
    ensures one.error.None? ==>
              Then(Run(n, done, None), Then(one, rest)) == Then(Run(one.nodes, done + one.report, None), rest)
    ensures one.error.Some? ==>
              Then(Run(n, done, None), Then(one, rest)) == Run(one.nodes, done + one.report, one.error)
  {
  }

  method DeleteReceiverEntry(fs: MemoryFileSystem, report: SyncReport, o: Options, path: Path, t: FileType)
    returns (r: FsResult<()>)
    modifies fs, report
    ensures Follows(DeleteOne(o, old(fs.nodes), path, t), fs.nodes, old(report.actions), report.actions, r)
  {
    r := Done(());
    if t.Directory? {
      report.Push(DeleteDir(path));
      if !o.dryRun {
        r := fs.RemoveDirs(path);
      }
    } else {
      report.Push(DeleteFile(path));
      if !o.dryRun {
        r := fs.Unlink(path);
      }
    }
  }

  /** The receiver is told the whole source at once and plans; the plan is then carried out. */
  method ApplyReceiverDeletes(fs: MemoryFileSystem, report: SyncReport, o: Options, dst: Path, source: map<Path, Node>,
                              dest: map<Path, Node>)
    returns (r: FsResult<()>)
    requires forall rel :: rel in source ==> rel != []
    modifies fs, report
    ensures var run := if EffectiveDelete(o).NoDelete? then Idle(old(fs.nodes))
            else DeletePass(o, old(fs.nodes), dst, source, dest);
            Follows(run, fs.nodes, old(report.actions), report.actions, r)
  {
    hide DeletePass, Deletes, Then, DeleteOne, Plans, IsPlan, Enumerates, SeeAll;
    if EffectiveDelete(o).NoDelete? {
      return Done(());
    }
    var plan := PlanReceiverDeletes(o, source, dest);
    r := CarryOut(fs, report, o, dst, dest, dest.Keys - source.Keys, plan);
    PassIs(o, old(fs.nodes), dst, source, dest);
  }

  lemma PassIs(o: Options, n: Nodes, dst: Path, source: map<Path, Node>, dest: map<Path, Node>)
    ensures DeletePass(o, n, dst, source, dest) == Deletes(o, n, dst, dest, dest.Keys - source.Keys, 0)
  {
  }

  method PlanReceiverDeletes(o: Options, source: map<Path, Node>, dest: map<Path, Node>) returns (plan: seq<Decision>)
    requires !EffectiveDelete(o).NoDelete? && forall rel :: rel in source ==> rel != []
    ensures Plans(o, dest, dest.Keys - source.Keys, plan)
  {
    hide Plans, IsPlan, SeeAll, Components;
    var state := new IncrementalReceiverState(EffectiveDelete(o));
    var named := InOrder(source);
    assert forall e :: e in named ==> e.path != [];
    SeesPaths(state.Now(), 0, named);
    var seen := state.ObserveBatch(0, AsSource(named), true);
    assert {} + Paths(named) == source.Keys;
    var listed := InOrder(dest);
    plan := state.PlanDeletes(listed, o.protect);
    PlanIsSpec(o, state.Now(), source, dest, listed, plan);
  }

  method CarryOut(fs: MemoryFileSystem, report: SyncReport, o: Options, dst: Path, dest: map<Path, Node>,
                  ghost all: set<Path>, plan: seq<Decision>)
    returns (r: FsResult<()>)
    requires Plans(o, dest, all, plan)
    modifies fs, report
    ensures Follows(Deletes(o, old(fs.nodes), dst, dest, all, 0), fs.nodes, old(report.actions), report.actions, r)
  {
    hide Deletes, Then, DeleteOne, Plans;
    var deleted, i := 0, 0;
    ghost var n, before, todo, done := fs.nodes, report.actions, all, [];
    PlansBounds(o, dest, all, plan);
    ThenIdle(n, Deletes(o, n, dst, dest, all, 0));
    assert plan[0..] == plan;
    while i < |plan|
      invariant 0 <= i <= |plan| && Plans(o, dest, todo, plan[i..]) && todo <= dest.Keys
      invariant report.actions == before + done
      invariant Deletes(o, n, dst, dest, all, 0)
                == Then(Run(fs.nodes, done, None), Deletes(o, fs.nodes, dst, dest, todo, deleted))
    {
      var d := plan[i];
      var path := dst + d.path;
      NextPlanned(o, dest, todo, plan[i..]);
      DeletesTurn(o, fs.nodes, dst, dest, todo, deleted);
      ghost var rest := todo - {d.path};
      assert plan[i..][1..] == plan[i + 1..];
      if path in fs.nodes {
        if d.ProtectAt? {
          ThenNext(fs.nodes, done, Run(fs.nodes, [ProtectDelete(path)], None),
                   Deletes(o, fs.nodes, dst, dest, rest, deleted));
          done := done + [ProtectDelete(path)];
          report.Push(ProtectDelete(path));
        } else {
          if o.maxDelete.Some? && deleted >= o.maxDelete.value {
            ThenFail(fs.nodes, done, MaxDeleteExceeded(o.maxDelete.value));
            return Failed(MaxDeleteExceeded(o.maxDelete.value));
          }
          ghost var one := DeleteOne(o, fs.nodes, path, dest[d.path].fileType);
          ThenNext(fs.nodes, done, one, Deletes(o, one.nodes, dst, dest, rest, deleted + 1));
          r := DeleteReceiverEntry(fs, report, o, path, dest[d.path].fileType);
          if r.Failed? {
            return;
          }
          done := done + one.report;
          deleted := deleted + 1;
        }
      }
      todo := rest;
      i := i + 1;
    }
    assert plan[i..] == [];
    NothingPlanned(o, fs.nodes, dst, dest, todo, deleted, done);
    r := Done(());
  }

  lemma PlansBounds(o: Options, dest: map<Path, Node>, todo: set<Path>, plan: seq<Decision>)
    requires Plans(o, dest, todo, plan)
    ensures todo <= dest.Keys
  {
  }

  lemma NextPlanned(o: Options, dest: map<Path, Node>, todo: set<Path>, plan: seq<Decision>)
    requires Plans(o, dest, todo, plan) && plan != []
    ensures todo != {} && todo <= dest.Keys && plan[0].path == First(Deepest, todo) && plan[0].path in todo
    ensures plan[0].ProtectAt? <==> o.protect(plan[0].path, dest[plan[0].path].fileType)
    ensures Plans(o, dest, todo - {plan[0].path}, plan[1..])
  {
    PlanHead(o, dest, todo, plan);
  }

  lemma NothingPlanned(o: Options, n: Nodes, dst: Path, dest: map<Path, Node>, todo: set<Path>, deleted: nat,
                       done: seq<Action>)
    requires Plans(o, dest, todo, []) && todo <= dest.Keys
    ensures Then(Run(n, done, None), Deletes(o, n, dst, dest, todo, deleted)) == Run(n, done, None)
  {
    assert todo == {};
    assert done + [] == done;
  }

  lemma ThenIdle(n: Nodes, r: Run)
    ensures Then(Run(n, [], None), r) == r
  {
    assert [] + r.report == r.report;
  }

  lemma ThenFail(n: Nodes, done: seq<Action>, e: FsError)
    ensures Then(Run(n, done, None), Fail(n, e)) == Run(n, done, Some(e))
  {
    assert done + [] == done;
  }

  /** The directories met so far, in path order. */
  ghost predicate Ascending(dirs: seq<Path>) {
    forall i, j :: 0 <= i < j < |dirs| ==> LexLess(dirs[i], dirs[j])
  }

  /** `dirs` is `todo` in ascending order. */
  ghost predicate Lists(dirs: seq<Path>, todo: set<Path>) {
    Ascending(dirs) && forall d :: d in dirs <==> d in todo
  }

  predicate KeepsDir(o: Options, source: map<Path, Node>, rel: Path)
    requires rel in source
  {
    source[rel].fileType.Directory? && (o.recursive || o.transferDirs)
  }

  /** `dirs` lists the directories among the entries already visited, `todo` coming after them all. */
  ghost predicate Visited(o: Options, source: map<Path, Node>, todo: set<Path>, dirs: seq<Path>) {
    && todo <= source.Keys && Ascending(dirs)
    && (forall d, r :: d in source.Keys - todo && r in todo ==> LexLess(d, r))
    && (forall d :: d in dirs <==> d in source.Keys - todo && KeepsDir(o, source, d))
  }

  lemma VisitNext(o: Options, source: map<Path, Node>, todo: set<Path>, dirs: seq<Path>, rel: Path)
    requires Visited(o, source, todo, dirs) && IsFirst(Forward, todo, rel)
    ensures rel in source
    ensures Visited(o, source, todo - {rel}, if KeepsDir(o, source, rel) then dirs + [rel] else dirs)
  {
    var rest := todo - {rel};
    var dirs' := if KeepsDir(o, source, rel) then dirs + [rel] else dirs;
    forall i, j | 0 <= i < j < |dirs'| ensures LexLess(dirs'[i], dirs'[j]) {
      if j == |dirs| {
        assert dirs[i] in dirs;
      }
    }
    forall d, r | d in source.Keys - rest && r in rest ensures LexLess(d, r) {
      if d == rel {
        assert Before(Forward, rel, r);
      }
    }
    assert forall d :: d in dirs' <==> d in dirs || (KeepsDir(o, source, rel) && d == rel);
  }

  lemma AllVisited(o: Options, source: map<Path, Node>, dirs: seq<Path>)
    requires Visited(o, source, {}, dirs)
    ensures Lists(dirs, Dirs(o, source))
  {
  }

  /** The transfer loop; the directories it has seen are kept for their times. */
  method RunTransfers(fs: MemoryFileSystem, report: SyncReport, o: Options, src: Path, dst: Path, source: map<Path,
                      Node>)
    returns (r: FsResult<()>, inTransfer: bool, dirs: seq<Path>)
    modifies fs, report
    ensures Follows(Steps(o, old(fs.nodes), src, dst, source, source.Keys), fs.nodes, old(report.actions),
                    report.actions, r)
    ensures r.Failed? ==> (inTransfer <==> StoppedInTransfer(o, old(fs.nodes), src, dst, source, source.Keys))
    ensures r.Done? ==> Lists(dirs, Dirs(o, source))
  {
    hide Steps, Then, Step, Visited, Lists, IsFirst, StoppedInTransfer, FailsInTransfer, Dirs;
    dirs, inTransfer := [], false;
    var pending := source.Keys;
    ghost var n, before, done := fs.nodes, report.actions, [];
    ThenIdle(n, Steps(o, n, src, dst, source, source.Keys));
    NoneVisited(o, source);
    while pending != {}
      invariant Visited(o, source, pending, dirs) && pending <= source.Keys
      invariant report.actions == before + done
      invariant Steps(o, n, src, dst, source, source.Keys)
                == Then(Run(fs.nodes, done, None), Steps(o, fs.nodes, src, dst, source, pending))
      invariant StoppedInTransfer(o, n, src, dst, source, source.Keys)
                == StoppedInTransfer(o, fs.nodes, src, dst, source, pending)
      decreases pending
    {
      FirstExists(Forward, pending);
      var rel :| IsFirst(Forward, pending, rel);
      IsFirstIn(Forward, pending, rel);
      FirstIsUnique(Forward, pending, rel);
      VisitNext(o, source, pending, dirs, rel);
      StepsTurn(o, fs.nodes, src, dst, source, pending);
      StoppedTurn(o, fs.nodes, src, dst, source, pending);
      ghost var one := Step(o, fs.nodes, src + rel, source[rel], dst + rel);
      ThenNext(fs.nodes, done, one, Steps(o, one.nodes, src, dst, source, pending - {rel}));
      r, inTransfer := SyncEntry(fs, report, o, src + rel, source[rel], dst + rel);
      if r.Failed? {
        return;
      }
      if source[rel].fileType.Directory? && (o.recursive || o.transferDirs) {
        dirs := dirs + [rel];
      }
      done := done + one.report;
      pending := pending - {rel};
    }
    AllVisited(o, source, dirs);
    StepsEnd(o, fs.nodes, src, dst, source, done);
    r := Done(());
  }

  lemma NoneVisited(o: Options, source: map<Path, Node>)
    ensures Visited(o, source, source.Keys, [])
  {
  }

  lemma StoppedTurn(o: Options, n: Nodes, src: Path, dst: Path, source: map<Path, Node>, todo: set<Path>)
    requires todo <= source.Keys && todo != {}
    ensures var rel := First(Forward, todo);
            var one := Step(o, n, src + rel, source[rel], dst + rel);
            StoppedInTransfer(o, n, src, dst, source, todo)
            <==> if one.error.Some? then FailsInTransfer(o, n, src + rel, source[rel], dst + rel)
                 else StoppedInTransfer(o, one.nodes, src, dst, source, todo - {rel})
  {
    hide Step, FailsInTransfer, IsFirst;
  }

  lemma StepsEnd(o: Options, n: Nodes, src: Path, dst: Path, source: map<Path, Node>, done: seq<Action>)
    ensures Then(Run(n, done, None), Steps(o, n, src, dst, source, {})) == Run(n, done, None)
  {
    assert done + [] == done;
  }

  // Taken from the end, ascending directories come as the specification visits them.
  lemma LastIsFirst(dirs: seq<Path>, todo: set<Path>)
    requires Lists(dirs, todo) && dirs != []
    ensures dirs[|dirs| - 1] in todo && First(Backward, todo) == dirs[|dirs| - 1]
    ensures Lists(dirs[..|dirs| - 1], todo - {dirs[|dirs| - 1]})
  {
    var last := dirs[|dirs| - 1];
    forall d | d in todo && d != last ensures LexLess(d, last) {
      var i :| 0 <= i < |dirs| && dirs[i] == d;
    }
    assert IsFirst(Backward, todo, last);
    FirstIsUnique(Backward, todo, last);
    var front := dirs[..|dirs| - 1];
    assert dirs == front + [last];
    forall d | d in front ensures d != last {
      var i :| 0 <= i < |front| && front[i] == d;
      LexTotal(d, last);
    }
  }

  method PreserveDirectoryMtimes(fs: MemoryFileSystem, report: SyncReport, o: Options, dst: Path, source: map<Path,
                                 Node>, dirs: seq<Path>)
    returns (r: FsResult<()>)
    requires Lists(dirs, Dirs(o, source))
    modifies fs, report
    ensures Follows(DirTimes(o, old(fs.nodes), dst, source, Dirs(o, source)), fs.nodes, old(report.actions),
                    report.actions, r)
  {
    hide Then, Lists, KeepMtime, DirTimes, IsFirst, Dirs;
    ghost var n, before, done, todo := fs.nodes, report.actions, [], Dirs(o, source);
    DirsWithin(o, source);
    var k := |dirs|;
    ThenIdle(n, DirTimes(o, n, dst, source, todo));
    assert dirs[..k] == dirs;
    while k > 0
      invariant 0 <= k <= |dirs| && todo <= source.Keys && Lists(dirs[..k], todo)
      invariant report.actions == before + done
      invariant DirTimes(o, n, dst, source, Dirs(o, source))
                == Then(Run(fs.nodes, done, None), DirTimes(o, fs.nodes, dst, source, todo))
    {
      LastIsFirst(dirs[..k], todo);
      assert dirs[..k][..k - 1] == dirs[..k - 1];
      k := k - 1;
      var rel := dirs[k];
      DirTimesTurn(o, fs.nodes, dst, source, todo);
      ghost var one := KeepMtime(o, fs.nodes, source[rel], dst + rel);
      ThenNext(fs.nodes, done, one, DirTimes(o, one.nodes, dst, source, todo - {rel}));
      r := PreserveTransferredMtime(fs, report, o, source[rel], dst + rel);
      if r.Failed? {
        return;
      }
      done, todo := done + one.report, todo - {rel};
    }
    assert dirs[..k] == [];
    NoneListed(todo);
    DirTimesEnd(o, fs.nodes, dst, source, done);
    r := Done(());
  }

  lemma DirsWithin(o: Options, source: map<Path, Node>)
    ensures Dirs(o, source) <= source.Keys
  {
  }

  lemma NoneListed(todo: set<Path>)
    requires Lists([], todo)
    ensures todo == {}
  {
  }

  lemma DirTimesTurn(o: Options, n: Nodes, dst: Path, source: map<Path, Node>, todo: set<Path>)
    requires todo <= source.Keys && todo != {}
    ensures var rel := First(Backward, todo);
            var one := KeepMtime(o, n, source[rel], dst + rel);
            DirTimes(o, n, dst, source, todo) == Then(one, DirTimes(o, one.nodes, dst, source, todo - {rel}))
  {
    hide KeepMtime, Then, IsFirst;
  }

  lemma DirTimesEnd(o: Options, n: Nodes, dst: Path, source: map<Path, Node>, done: seq<Action>)
    ensures Then(Run(n, done, None), DirTimes(o, n, dst, source, {})) == Run(n, done, None)
  {
    assert done + [] == done;
  }

  method MakeDestination(fs: MemoryFileSystem, report: SyncReport, o: Options, dst: Path)
    modifies fs, report
    ensures Follows(Made(o, old(fs.nodes), dst), fs.nodes, old(report.actions), report.actions, Done(()))
  {
    if dst !in fs.nodes {
      report.Push(CreateDir(dst));
      if !o.dryRun {
        fs.MakeDirs(dst);
      }
    }
  }

  ghost function PassWhen(o: Options, now: bool, n: Nodes, dst: Path, source: map<Path, Node>, dest: map<Path,
                          Node>): Run {
    if now then DeletePass(o, n, dst, source, dest) else Idle(n)
  }

  ghost function Moved(o: Options, n: Nodes, src: Path, dst: Path, source: map<Path, Node>, dest: map<Path,
                       Node>): Run {
    Recover(o, Steps(o, n, src, dst, source, source.Keys), StoppedInTransfer(o, n, src, dst, source, source.Keys), dst,
            source, dest)
  }

  // A run put together from its stages, each as it went.
  ghost predicate Staged(o: Options, n: Nodes, src: Path, dst: Path, source: map<Path, Node>, dest: map<Path, Node>,
                         made: Run, early: Run, moved: Run, late: Run, times: Run) {
    && made == Made(o, n, dst)
    && early == PassWhen(o, DeletesFirst(o), made.nodes, dst, source, dest)
    && moved == Moved(o, early.nodes, src, dst, source, dest)
    && late == PassWhen(o, DeletesLast(o), moved.nodes, dst, source, dest)
    && times == DirTimes(o, late.nodes, dst, source, Dirs(o, source))
  }

  lemma StagedIs(o: Options, n: Nodes, src: Path, dst: Path, source: map<Path, Node>, dest: map<Path, Node>,
                 made: Run, early: Run, moved: Run, late: Run, times: Run)
    requires Staged(o, n, src, dst, source, dest, made, early, moved, late, times)
    ensures SyncDirs(o, n, src, dst, source, dest) == Then(made, Then(early, Then(moved, Then(late, times))))
  {
    hide Steps, StoppedInTransfer, DeletePass, DirTimes, Dirs, CreateDirAll, Recover, EffectiveDelete, Then, Act;
  }

  // How the stages add up, wherever the run breaks off.
  lemma StagesAddUp(n: Nodes, made: Run, early: Run, moved: Run, late: Run, times: Run)
    requires made.error.None?
    ensures var r := Then(made, Then(early, Then(moved, Then(late, times))));
            var e := made.report + early.report;
            && (early.error.Some? ==> r == Run(early.nodes, e, early.error))
            && (early.error.None? && moved.error.Some? ==> r == Run(moved.nodes, e + moved.report, moved.error))
            && (early.error.None? && moved.error.None? && late.error.Some? ==>
                  r == Run(late.nodes, e + moved.report + late.report, late.error))
            && (early.error.None? && moved.error.None? && late.error.None? ==>
                  r == Run(times.nodes, e + moved.report + late.report + times.report, times.error))
  {
    hide Then;
    ThenIdle(n, Then(made, Then(early, Then(moved, Then(late, times)))));
    ThenNext(n, [], made, Then(early, Then(moved, Then(late, times))));
    assert [] + made.report == made.report;
    ThenNext(made.nodes, made.report, early, Then(moved, Then(late, times)));
    ThenNext(early.nodes, made.report + early.report, moved, Then(late, times));
    ThenNext(moved.nodes, made.report + early.report + moved.report, late, times);
    ThenLast(late.nodes, made.report + early.report + moved.report + late.report, times);
  }

  lemma ThenLast(n: Nodes, done: seq<Action>, last: Run)
    ensures Then(Run(n, done, None), last) == Run(last.nodes, done + last.report, last.error)
  {
  }

  method SyncDirectories(fs: MemoryFileSystem, report: SyncReport, o: Options, src: Path, dst: Path,
                         source: map<Path, Node>, dest: map<Path, Node>) returns (r: FsResult<()>)
    requires forall rel :: rel in source ==> rel != []
    modifies fs, report
    ensures Follows(SyncDirs(o, old(fs.nodes), src, dst, source, dest), fs.nodes, old(report.actions), report.actions,
                    r)
  {
    hide PassWhen, Moved, DirTimes, Dirs, SyncDirs, EffectiveDelete, Made, Lists, Then, DeletesFirst, DeletesLast,
      Staged;
    PassModes(o);
    DirsWithin(o, source);
    ghost var n := fs.nodes;
    ghost var made := Made(o, n, dst);
    ghost var early := PassWhen(o, DeletesFirst(o), made.nodes, dst, source, dest);
    ghost var moved := Moved(o, early.nodes, src, dst, source, dest);
    ghost var late := PassWhen(o, DeletesLast(o), moved.nodes, dst, source, dest);
    ghost var times := DirTimes(o, late.nodes, dst, source, Dirs(o, source));
    StagedBy(o, n, src, dst, source, dest);
    StagedIs(o, n, src, dst, source, dest, made, early, moved, late, times);
    MadeWell(o, n, dst);
    StagesAddUp(n, made, early, moved, late, times);

    ghost var before := report.actions;
    MakeDestination(fs, report, o, dst);
    r := DeleteWhen(fs, report, o, DeletesFirst(o), dst, source, dest);
    Regroup(before, made.report, early.report);
    if r.Failed? {
      return;
    }
    ghost var said := made.report + early.report;
    var transferred := TransferAndRecover(fs, report, o, src, dst, source, dest);
    Regroup(before, said, moved.report);
    if transferred.Failed? {
      return Failed(transferred.error);
    }
    said := said + moved.report;
    r := DeleteWhen(fs, report, o, DeletesLast(o), dst, source, dest);
    Regroup(before, said, late.report);
    if r.Failed? {
      return;
    }
    said := said + late.report;
    r := PreserveDirectoryMtimes(fs, report, o, dst, source, transferred.value);
    Regroup(before, said, times.report);
  }

  /** A delete pass, if this is its time. */
  method DeleteWhen(fs: MemoryFileSystem, report: SyncReport, o: Options, now: bool, dst: Path, source: map<Path, Node>,
                    dest: map<Path, Node>)
    returns (r: FsResult<()>)
    requires now ==> !EffectiveDelete(o).NoDelete?
    requires forall rel :: rel in source ==> rel != []
    modifies fs, report
    ensures Follows(PassWhen(o, now, old(fs.nodes), dst, source, dest), fs.nodes, old(report.actions), report.actions,
                    r)
  {
    if !now {
      return Done(());
    }
    hide DeletePass;
    r := ApplyReceiverDeletes(fs, report, o, dst, source, dest);
  }

  lemma StagedBy(o: Options, n: Nodes, src: Path, dst: Path, source: map<Path, Node>, dest: map<Path, Node>)
    ensures var made := Made(o, n, dst);
            var early := PassWhen(o, DeletesFirst(o), made.nodes, dst, source, dest);
            var moved := Moved(o, early.nodes, src, dst, source, dest);
            var late := PassWhen(o, DeletesLast(o), moved.nodes, dst, source, dest);
            Staged(o, n, src, dst, source, dest, made, early, moved, late,
                   DirTimes(o, late.nodes, dst, source, Dirs(o, source)))
  {
    hide Made, PassWhen, Moved, DirTimes, Dirs;
    DirsWithin(o, source);
  }

  lemma MadeWell(o: Options, n: Nodes, dst: Path)
    ensures Made(o, n, dst).error.None?
  {
  }

  /** The transfer loop, and after a failing transfer the delete pass that errors are not to stop. */
  method TransferAndRecover(fs: MemoryFileSystem, report: SyncReport, o: Options, src: Path, dst: Path,
                            source: map<Path, Node>, dest: map<Path, Node>) returns (r: FsResult<seq<Path>>)
    requires forall rel :: rel in source ==> rel != []
    modifies fs, report
    ensures Follows(Moved(o, old(fs.nodes), src, dst, source, dest), fs.nodes, old(report.actions), report.actions,
                    if r.Failed? then Failed(r.error) else Done(()))
    ensures r.Done? ==> Lists(r.value, Dirs(o, source))
  {
    hide Steps, StoppedInTransfer, DeletePass, Dirs, EffectiveDelete, Lists, DeletesLast;
    PassModes(o);
    var done, inTransfer, dirs := RunTransfers(fs, report, o, src, dst, source);
    if done.Done? {
      return Done(dirs);
    }
    if inTransfer && o.ignoreErrors && DeletesLast(o) {
      var swept := ApplyReceiverDeletes(fs, report, o, dst, source, dest);
      if swept.Failed? {
        return Failed(swept.error);
      }
    }
    r := Failed(done.error);
  }

  lemma PassModes(o: Options)
    ensures DeletesFirst(o) || DeletesLast(o) <==> !EffectiveDelete(o).NoDelete?
  {
  }

  method EnsureMissingDestinationParentAllowed(fs: MemoryFileSystem, o: Options, dst: Path) returns (r: FsResult<()>)
    ensures match CheckParent(o, fs.nodes, dst)
            case Some(e) => r == Failed(e)
            case None => r == Done(())
  {
    if o.mkpath || dst in fs.nodes || |dst| <= 1 {
      return Done(());
    }
    var parent := Parent(dst);
    if parent !in fs.nodes {
      return Failed(NotFound(parent));
    }
    if !fs.nodes[parent].fileType.Directory? {
      return Failed(NotDirectory(parent));
    }
    r := Done(());
  }

  method SyncSingleFile(fs: MemoryFileSystem, report: SyncReport, o: Options, src: Path, dst: Path)
    returns (r: FsResult<()>)
    requires src in fs.nodes && fs.nodes[src].fileType.File?
    modifies fs, report
    ensures Follows(SyncFile(o, old(fs.nodes), src, dst), fs.nodes, old(report.actions), report.actions, r)
  {
    hide ClearTarget, UpdateFile, CheckParent, Step;
    var target := dst;
    var source := fs.nodes[src];
    if dst in fs.nodes && fs.nodes[dst].fileType.Directory? {
      if src == [] {
        return Failed(Unsupported);
      }
      target := dst + [src[|src| - 1]];
    }
    r := EnsureMissingDestinationParentAllowed(fs, o, target);
    if r.Failed? {
      return;
    }
    FileStepIs(o, fs.nodes, src, source, target);
    var inTransfer;
    r, inTransfer := SyncFileEntry(fs, report, o, src, source, target);
  }

  lemma FileStepIs(o: Options, n: Nodes, from: Path, source: Node, target: Path)
    requires source.fileType.File?
    ensures var c := ClearTarget(o, n, target, File);
            Step(o, n, from, source, target) == if !c.proceed then c.run
              else Then(c.run, UpdateFile(o, c.run.nodes, from, source, target))
  {
    hide ClearTarget, UpdateFile;
  }

  /** The entry point. Its report counts from nothing, whatever the filesystem held. */
  method SyncTree(fs: MemoryFileSystem, o: Options, src: Path, dst: Path) returns (r: FsResult<()>, report: SyncReport)
    requires Tree(fs.nodes, src) && Tree(fs.nodes, dst)
    modifies fs
    ensures fresh(report)
    ensures Follows(Sync(o, old(fs.nodes), src, dst), fs.nodes, [], report.actions, r)
  {
    hide SyncDirs, SyncFile, CheckParent, Entries;
    report := new SyncReport();
    if Under(dst, src) {
      return Failed(DestinationInsideSource), report;
    }
    if src !in fs.nodes {
      return Failed(NotFound(src)), report;
    }
    if fs.nodes[src].fileType.File? {
      r := SyncSingleFile(fs, report, o, src, dst);
      return;
    }
    var source := RelativeEntries(fs, src, o.recursive);
    if source.Failed? {
      return Failed(source.error), report;
    }
    var dest := Done(map[]);
    if dst in fs.nodes {
      dest := RelativeEntries(fs, dst, o.recursive);
      if dest.Failed? {
        return Failed(dest.error), report;
      }
    }
    r := EnsureMissingDestinationParentAllowed(fs, o, dst);
    if r.Failed? {
      return;
    }
    r := SyncDirectories(fs, report, o, src, dst, source.value, dest.value);
  }
}
