/** The receiver's side of an incremental file list: which source entries it has seen, and what it may delete. */
module SyncReceiver {
  import opened MemoryFs
  import opened PathOrder
  import opened SyncSpec

  /** A path as it arrives, component by component. */
  datatype Component = CurDir | Normal(name: Name) | Outside

  datatype SourceEntry = SourceEntry(path: seq<Component>, fileType: FileType)

  datatype ReceiverEntry = ReceiverEntry(path: Path, fileType: FileType)

  datatype Decision = DeleteFileAt(path: Path) | DeleteDirAt(path: Path) | ProtectAt(path: Path)

  function Names(p: seq<Component>): seq<Name> {
    if p == [] then []
    else if p[0].Normal? then [p[0].name] + Names(p[1..])
    else Names(p[1..])
  }

  /** A path stays inside the tree and names something in it. */
  predicate Normalizes(p: seq<Component>) {
    Outside !in p && Names(p) != []
  }

  datatype State = State(
    deleteMode: DeleteMode, sources: set<Path>, directories: set<Path>, completed: set<nat>, next: nat, finalSeen: bool)

  function Fresh(mode: DeleteMode): State {
    State(mode, {}, {}, {}, 0, false)
  }

  /** One more source entry, at `index`. */
  function See(st: State, index: nat, e: SourceEntry): State {
    var p := Names(e.path);
    st.(sources := st.sources + {p}, completed := st.completed + {index}, next := index + 1,
        directories := if e.fileType.Directory? then st.directories + {p} else st.directories)
  }

  /** Entries are taken in until one has a bad path; those before it stay. */
  function SeeAll(st: State, index: nat, es: seq<SourceEntry>): (State, bool)
    decreases |es|
  {
    if es == [] then (st, true)
    else if !Normalizes(es[0].path) then (st, false)
    else SeeAll(See(st, index, es[0]), index + 1, es[1..])
  }

  datatype Observed = Observed(state: State, error: FsResult<()>)

  function Observe(st: State, base: nat, es: seq<SourceEntry>, isFinal: bool): Observed {
    if st.finalSeen || base != st.next then Observed(st, Failed(Unsupported))
    else
      var (seen, ok) := SeeAll(st, base, es);
      if !ok then Observed(seen, Failed(InvalidPortablePath))
      else Observed(if isFinal then seen.(finalSeen := true) else seen, Done(()))
  }

  predicate DeleteReady(st: State) {
    !st.deleteMode.NoDelete? && st.finalSeen
  }

  function Decide(protect: (Path, FileType) -> bool, e: ReceiverEntry): Decision {
    if protect(e.path, e.fileType) then ProtectAt(e.path)
    else if e.fileType.Directory? then DeleteDirAt(e.path)
    else DeleteFileAt(e.path)
  }

  /** The receiver entries the source has not named, in the order they were listed. */
  function Absent(st: State, es: seq<ReceiverEntry>): seq<ReceiverEntry> {
    if es == [] then []
    else
      var front := Absent(st, es[..|es| - 1]);
      if es[|es| - 1].path in st.sources then front else front + [es[|es| - 1]]
  }

  /** Deepest first; equal depths from the last path to the first. */
  ghost predicate Ordered(es: seq<ReceiverEntry>) {
    forall i, j :: 0 <= i < j < |es| ==> !Before(Deepest, es[j].path, es[i].path)
  }

  function Decisions(protect: (Path, FileType) -> bool, es: seq<ReceiverEntry>): (ds: seq<Decision>)
    ensures |ds| == |es| && forall i :: 0 <= i < |es| ==> ds[i] == Decide(protect, es[i])
  {
    if es == [] then [] else Decisions(protect, es[..|es| - 1]) + [Decide(protect, es[|es| - 1])]
  }

  /** What planning promises: all entries the source lacks and no others, each decided once, in deletion order. */
  ghost predicate IsPlan(st: State, protect: (Path, FileType) -> bool, es: seq<ReceiverEntry>, plan: seq<Decision>) {
    if !DeleteReady(st) then plan == []
    else
      exists order: seq<ReceiverEntry> ::
        multiset(order) == multiset(Absent(st, es)) && Ordered(order) && plan == Decisions(protect, order)
  }

  // In a plan, whatever lies below an entry comes before it.
  lemma DescendantsFirst(st: State, protect: (Path, FileType) -> bool, es: seq<ReceiverEntry>, plan: seq<Decision>,
                         i: nat, j: nat)
    requires IsPlan(st, protect, es, plan) && i < |plan| && j < |plan|
    requires Under(plan[i].path, plan[j].path) && plan[i].path != plan[j].path
    ensures i < j
  {
    assert |plan[i].path| > |plan[j].path|;
    assert Before(Deepest, plan[i].path, plan[j].path);
  }

  lemma AbsentExactly(st: State, es: seq<ReceiverEntry>, e: ReceiverEntry)
    ensures e in Absent(st, es) <==> e in es && e.path !in st.sources
  {
    if es != [] {
      AbsentExactly(st, es[..|es| - 1], e);
      assert es == es[..|es| - 1] + [es[|es| - 1]];
    }
  }

  // A plan speaks of exactly the receiver entries the source has not named.
  lemma PlanCovers(st: State, protect: (Path, FileType) -> bool, es: seq<ReceiverEntry>, plan: seq<Decision>,
                   d: Decision)
    requires IsPlan(st, protect, es, plan) && DeleteReady(st)
    ensures d in plan <==> exists e :: e in es && e.path !in st.sources && d == Decide(protect, e)
    ensures |plan| == |Absent(st, es)|
  {
    var order: seq<ReceiverEntry> :|
      multiset(order) == multiset(Absent(st, es)) && Ordered(order) && plan == Decisions(protect, order);
    assert |multiset(order)| == |multiset(Absent(st, es))|;
    if d in plan {
      var i :| 0 <= i < |plan| && plan[i] == d;
      assert order[i] in multiset(order);
      AbsentExactly(st, es, order[i]);
    }
    forall e | e in es && e.path !in st.sources ensures Decide(protect, e) in plan {
      AbsentExactly(st, es, e);
      assert e in multiset(order);
      var i :| 0 <= i < |order| && order[i] == e;
      assert plan[i] == Decide(protect, e);
    }
  }

  class IncrementalReceiverState {
    const deleteMode: DeleteMode
    var sourceRelatives: set<Path>
    var pendingDirectories: set<Path>
    var pendingDeletes: seq<Decision>
    var completedFileIndexes: set<nat>
    var nextIndex: nat
    var finalSeen: bool

    function Now(): State
      reads this
    {
      State(deleteMode, sourceRelatives, pendingDirectories, completedFileIndexes, nextIndex, finalSeen)
    }

    constructor (mode: DeleteMode)
      ensures Now() == Fresh(mode) && pendingDeletes == []
    {
      deleteMode := mode;
      sourceRelatives, pendingDirectories, pendingDeletes := {}, {}, [];
      completedFileIndexes, nextIndex, finalSeen := {}, 0, false;
    }

    method ObserveBatch(baseIndex: nat, entries: seq<SourceEntry>, isFinal: bool) returns (r: FsResult<()>)
      modifies this
      ensures Observed(Now(), r) == Observe(old(Now()), baseIndex, entries, isFinal)
      ensures pendingDeletes == old(pendingDeletes)
    {
      if finalSeen {
        return Failed(Unsupported);
      }
      if baseIndex != nextIndex {
        return Failed(Unsupported);
      }
      ghost var st := Now();
      var offset := 0;
      while offset < |entries|
        invariant 0 <= offset <= |entries|
        invariant pendingDeletes == old(pendingDeletes) && finalSeen == st.finalSeen
        invariant SeeAll(st, baseIndex, entries) == SeeAll(Now(), baseIndex + offset, entries[offset..])
      {
        var relative :- NormalizeRelativePath(entries[offset].path);
        var index := baseIndex + offset;
        sourceRelatives := sourceRelatives + {relative};
        completedFileIndexes := completedFileIndexes + {index};
        if entries[offset].fileType.Directory? {
          pendingDirectories := pendingDirectories + {relative};
        }
        nextIndex := index + 1;
        offset := offset + 1;
      }
      if isFinal {
        finalSeen := true;
      }
      r := Done(());
    }

    method PlanDeletes(existing: seq<ReceiverEntry>, protect: (Path, FileType) -> bool) returns (plan: seq<Decision>)
      modifies this`pendingDeletes
      ensures IsPlan(Now(), protect, existing, plan) && pendingDeletes == plan
    {
      if deleteMode.NoDelete? || !finalSeen {
        pendingDeletes := [];
        return [];
      }
      var absent: seq<ReceiverEntry> := [];
      var i := 0;
      while i < |existing|
        invariant 0 <= i <= |existing| && absent == Absent(Now(), existing[..i])
      {
        assert existing[..i + 1][..i] == existing[..i];
        if existing[i].path !in sourceRelatives {
          absent := absent + [existing[i]];
        }
        i := i + 1;
      }
      assert existing[..i] == existing;
      var order := SortForDeletion(absent);
      plan := [];
      i := 0;
      while i < |order|
        invariant 0 <= i <= |order| && plan == Decisions(protect, order[..i])
      {
        assert order[..i + 1][..i] == order[..i];
        plan := plan + [Decide(protect, order[i])];
        i := i + 1;
      }
      assert order[..i] == order;
      pendingDeletes := plan;
    }
  }

  /** Current-directory components go; anything pointing out of the tree is refused. */
  method NormalizeRelativePath(path: seq<Component>) returns (r: FsResult<Path>)
    ensures r == if Normalizes(path) then Done(Names(path)) else Failed(InvalidPortablePath)
  {
    var out: Path := [];
    var i := 0;
    while i < |path|
      invariant 0 <= i <= |path| && Outside !in path[..i] && Names(path) == out + Names(path[i..])
    {
      assert path[i..][1..] == path[i + 1..];
      match path[i] {
        case CurDir =>
        case Normal(name) =>
          out := out + [name];
        case Outside =>
          return Failed(InvalidPortablePath);
      }
      i := i + 1;
    }
    assert path[..i] == path && out + Names(path[i..]) == out;
    if out == [] {
      return Failed(InvalidPortablePath);
    }
    r := Done(out);
  }

  // The library's comparison sort, as insertion.
  method SortForDeletion(es: seq<ReceiverEntry>) returns (sorted: seq<ReceiverEntry>)
    ensures multiset(sorted) == multiset(es) && Ordered(sorted)
  {
    sorted := [];
    var i := 0;
    while i < |es|
      invariant 0 <= i <= |es| && multiset(sorted) == multiset(es[..i]) && Ordered(sorted)
    {
      assert es[..i + 1] == es[..i] + [es[i]];
      sorted := Insert(sorted, es[i]);
      i := i + 1;
    }
    assert es[..i] == es;
  }

  method Insert(sorted: seq<ReceiverEntry>, e: ReceiverEntry) returns (r: seq<ReceiverEntry>)
    requires Ordered(sorted)
    ensures multiset(r) == multiset(sorted + [e]) && Ordered(r)
  {
    hide Before, Ordered;
    var k := |sorted|;
    while k > 0 && Before(Deepest, e.path, sorted[k - 1].path)
      invariant 0 <= k <= |sorted| && forall j :: k <= j < |sorted| ==> Before(Deepest, e.path, sorted[j].path)
    {
      k := k - 1;
    }
    r := sorted[..k] + [e] + sorted[k..];
    assert sorted == sorted[..k] + sorted[k..];
    InsertOrdered(sorted, e, k);
  }

  lemma InsertOrdered(sorted: seq<ReceiverEntry>, e: ReceiverEntry, k: nat)
    requires Ordered(sorted) && k <= |sorted|
    requires forall j :: k <= j < |sorted| ==> Before(Deepest, e.path, sorted[j].path)
    requires k > 0 ==> !Before(Deepest, e.path, sorted[k - 1].path)
    ensures Ordered(sorted[..k] + [e] + sorted[k..])
  {
    hide Before;
    var r := sorted[..k] + [e] + sorted[k..];
    forall i, j | 0 <= i < j < |r| ensures !Before(Deepest, r[j].path, r[i].path) {
      if i == k {
        BeforeTotal(Deepest, e.path, sorted[j - 1].path);
      } else if j == k {
        NotBefore(e.path, sorted[k - 1].path, sorted[i].path);
      }
    }
  }

  lemma NotBefore(a: Path, b: Path, c: Path)
    requires !Before(Deepest, a, b) && (b == c || !Before(Deepest, b, c))
    ensures !Before(Deepest, a, c)
  {
    hide Before;
    BeforeTotal(Deepest, a, b);
    BeforeTotal(Deepest, b, c);
    BeforeTotal(Deepest, a, c);
    if Before(Deepest, a, c) {
      if a != b {
        BeforeTransitive(Deepest, b, a, c);
      }
    }
  }
}
