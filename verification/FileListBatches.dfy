/** Cutting a file list into batches, and what the receiver makes of them. */
module FileListBatches {
  import opened Wire
  import opened FileEntry
  import R = SyncReceiver
  import S = SyncSpec
  import M = MemoryFs

  const USIZE_MAX: nat := 0xffff_ffff_ffff_ffff

  function SaturatingAdd(a: nat, b: nat): (r: nat) {
    if a + b > USIZE_MAX then USIZE_MAX else a + b
  }

  datatype Batch = Batch(baseIndex: nat, entries: seq<Entry>, isFinal: bool)

  /** `overhead` is the fixed cost of an entry on the machine at hand. */
  datatype Config = Config(maxEntries: nat, maxAlloc: Option<nat>, overhead: nat)

  function XattrsAlloc(total: nat, xs: seq<Xattr>): nat
    decreases |xs|
  {
    if xs == [] then total
    else XattrsAlloc(SaturatingAdd(SaturatingAdd(total, |xs[0].name|), |xs[0].value|), xs[1..])
  }

  function NameAlloc(total: nat, name: Option<seq<byte>>): nat {
    if name.Some? then SaturatingAdd(total, |name.value|) else total
  }

  function Alloc(c: Config, e: Entry): nat {
    var base := SaturatingAdd(c.overhead, |e.path|);
    XattrsAlloc(NameAlloc(NameAlloc(base, e.meta.userName), e.meta.groupName), e.meta.xattrs)
  }

  predicate Over(c: Config, bytes: nat) {
    c.maxAlloc.Some? && c.maxAlloc.value > 0 && bytes > c.maxAlloc.value
  }

  datatype State = State(nextBaseIndex: nat, entries: seq<Entry>, alloc: nat)

  const FRESH := State(0, [], 0)

  predicate ShouldFlush(c: Config, st: State, alloc: nat) {
    st.entries != [] && (|st.entries| >= c.maxEntries || Over(c, SaturatingAdd(st.alloc, alloc)))
  }

  function Emitted(st: State): State {
    State(st.nextBaseIndex + |st.entries|, [], 0)
  }

  function Added(c: Config, st: State, e: Entry): State {
    State(st.nextBaseIndex, st.entries + [e], SaturatingAdd(st.alloc, Alloc(c, e)))
  }

  datatype Pushed = Pushed(state: State, result: Result<Option<Batch>>)

  /** One entry pushed: a batch that is full, or would be, goes out. */
  function Push(c: Config, st: State, e: Entry): Pushed {
    if ShouldFlush(c, st, Alloc(c, e)) then
      var batch := Batch(st.nextBaseIndex, st.entries, false);
      if Over(c, Alloc(c, e)) then Pushed(Emitted(st), Err(InvalidData))
      else Pushed(Added(c, Emitted(st), e), Ok(Some(batch)))
    else if Over(c, Alloc(c, e)) then Pushed(st, Err(InvalidData))
    else
      var added := Added(c, st, e);
      if |added.entries| >= c.maxEntries then
        Pushed(Emitted(added), Ok(Some(Batch(added.nextBaseIndex, added.entries, false))))
      else Pushed(added, Ok(None))
  }

  class FileListBatchBuilder {
    const config: Config
    var nextBaseIndex: nat
    var currentEntries: seq<Entry>
    var currentAlloc: nat

    function Now(): State
      reads this
    {
      State(nextBaseIndex, currentEntries, currentAlloc)
    }

    /** A zero batch size is refused by `New`. */
    constructor (c: Config)
      ensures config == c && Now() == FRESH
    {
      config := c;
      nextBaseIndex, currentEntries, currentAlloc := 0, [], 0;
    }

    static method New(c: Config) returns (r: Result<FileListBatchBuilder>)
      ensures r.Ok? <==> c.maxEntries > 0
      ensures r.Ok? ==> fresh(r.value) && r.value.config == c && r.value.Now() == FRESH
    {
      if c.maxEntries == 0 {
        return Err(InvalidInput);
      }
      var b := new FileListBatchBuilder(c);
      r := Ok(b);
    }

    method PushEntry(e: Entry) returns (r: Result<Option<Batch>>)
      modifies this
      ensures Pushed(Now(), r) == Push(config, old(Now()), e)
    {
      var entryAlloc := EntryAlloc(config, e);
      if currentEntries != []
         && (|currentEntries| >= config.maxEntries || Over(config, SaturatingAdd(currentAlloc, entryAlloc))) {
        var batch := Emit(false);
        var _ :- PushCurrent(e, entryAlloc);
        return Ok(Some(batch));
      }
      var _ :- PushCurrent(e, entryAlloc);
      if |currentEntries| >= config.maxEntries {
        var batch := Emit(false);
        return Ok(Some(batch));
      }
      r := Ok(None);
    }

    method Finish() returns (batch: Batch)
      modifies this
      ensures batch == Batch(old(nextBaseIndex), old(currentEntries), true) && Now() == Emitted(old(Now()))
    {
      batch := Emit(true);
    }

    method PushCurrent(e: Entry, entryAlloc: nat) returns (r: Result<()>)
      requires entryAlloc == Alloc(config, e)
      modifies this
      ensures Over(config, entryAlloc) ==> r == Err(InvalidData) && Now() == old(Now())
      ensures !Over(config, entryAlloc) ==> r == Ok(()) && Now() == Added(config, old(Now()), e)
    {
      if Over(config, entryAlloc) {
        return Err(InvalidData);
      }
      currentAlloc := SaturatingAdd(currentAlloc, entryAlloc);
      currentEntries := currentEntries + [e];
      r := Ok(());
    }

    method Emit(isFinal: bool) returns (batch: Batch)
      modifies this
      ensures batch == Batch(old(nextBaseIndex), old(currentEntries), isFinal) && Now() == Emitted(old(Now()))
    {
      batch := Batch(nextBaseIndex, currentEntries, isFinal);
      nextBaseIndex := nextBaseIndex + |currentEntries|;
      currentEntries, currentAlloc := [], 0;
    }
  }

  method EntryAlloc(c: Config, e: Entry) returns (total: nat)
    ensures total == Alloc(c, e)
  {
    total := SaturatingAdd(c.overhead, |e.path|);
    if e.meta.userName.Some? {
      total := SaturatingAdd(total, |e.meta.userName.value|);
    }
    if e.meta.groupName.Some? {
      total := SaturatingAdd(total, |e.meta.groupName.value|);
    }
    var xs := e.meta.xattrs;
    var i := 0;
    while i < |xs|
      invariant 0 <= i <= |xs| && Alloc(c, e) == XattrsAlloc(total, xs[i..])
    {
      assert xs[i..][1..] == xs[i + 1..];
      total := SaturatingAdd(SaturatingAdd(total, |xs[i].name|), |xs[i].value|);
      i := i + 1;
    }
  }

  /** The batches of a whole list: every entry pushed, then the rest finished off. */
  function Batches(c: Config, st: State, es: seq<Entry>): Result<seq<Batch>>
    decreases |es|
  {
    if es == [] then Ok([Batch(st.nextBaseIndex, st.entries, true)])
    else
      var p := Push(c, st, es[0]);
      var out :- p.result;
      var rest :- Batches(c, p.state, es[1..]);
      Ok(if out.Some? then [out.value] + rest else rest)
  }

  function Concat(bs: seq<Batch>): seq<Entry> {
    if bs == [] then [] else bs[0].entries + Concat(bs[1..])
  }

  function AllocOf(c: Config, total: nat, es: seq<Entry>): nat
    decreases |es|
  {
    if es == [] then total else SaturatingAdd(AllocOf(c, total, es[..|es| - 1]), Alloc(c, es[|es| - 1]))
  }

  predicate WithinLimits(c: Config, b: Batch) {
    |b.entries| <= c.maxEntries && !Over(c, AllocOf(c, 0, b.entries))
  }

  /** Batches number their entries without a gap from `base`, the last one and no other is final. */
  ghost predicate Contiguous(c: Config, bs: seq<Batch>, base: nat) {
    && bs != [] && bs[0].baseIndex == base && WithinLimits(c, bs[0])
    && if |bs| == 1 then bs[0].isFinal
       else !bs[0].isFinal && bs[0].entries != [] && Contiguous(c, bs[1..], base + |bs[0].entries|)
  }

  predicate Building(c: Config, st: State) {
    && |st.entries| < c.maxEntries + (if st.entries == [] then 1 else 0)
    && st.alloc == AllocOf(c, 0, st.entries) && !Over(c, st.alloc)
  }

  lemma PushKeeps(c: Config, st: State, e: Entry)
    requires c.maxEntries > 0 && Building(c, st)
    ensures var p := Push(c, st, e);
            && (p.result.Ok? <==> !Over(c, Alloc(c, e)))
            && (p.result.Ok? ==> Building(c, p.state))
            && (p.result.Ok? && p.result.value.Some? ==>
                  var b := p.result.value.value;
                  && b.baseIndex == st.nextBaseIndex && !b.isFinal && b.entries != [] && WithinLimits(c, b)
                  && p.state.nextBaseIndex == st.nextBaseIndex + |b.entries|
                  && b.entries + p.state.entries == st.entries + [e])
            && (p.result == Ok(None) ==>
                p.state.entries == st.entries + [e] && p.state.nextBaseIndex == st.nextBaseIndex)
  {
    hide Alloc;
    assert (st.entries + [e])[..|st.entries|] == st.entries;
    assert [e][..0] == [];
    assert AllocOf(c, 0, [e]) == SaturatingAdd(0, Alloc(c, e));
  }

  lemma {:induction false} BatchesFrom(c: Config, st: State, es: seq<Entry>)
    requires c.maxEntries > 0 && Building(c, st)
    ensures var r := Batches(c, st, es);
            && (r.Ok? <==> forall i :: 0 <= i < |es| ==> !Over(c, Alloc(c, es[i])))
            && (r.Ok? ==> Concat(r.value) == st.entries + es && Contiguous(c, r.value, st.nextBaseIndex))
    decreases |es|
  {
    hide Alloc, Push, Building, Over, WithinLimits;
    if es == [] {
      LastBatch(c, st);
    } else {
      var p := Push(c, st, es[0]);
      PushKeeps(c, st, es[0]);
      if p.result.Ok? {
        BatchesFrom(c, p.state, es[1..]);
        assert forall i :: 1 <= i < |es| ==> es[i] == es[1..][i - 1];
        assert st.entries + [es[0]] + es[1..] == st.entries + es;
        if p.result.value.Some? {
          var b := p.result.value.value;
          assert b.entries + (p.state.entries + es[1..]) == st.entries + es;
        }
      }
    }
  }

  lemma LastBatch(c: Config, st: State)
    requires c.maxEntries > 0 && Building(c, st)
    ensures var bs := Batches(c, st, []);
            bs.Ok? && Concat(bs.value) == st.entries + [] && Contiguous(c, bs.value, st.nextBaseIndex)
  {
  }

  /**
   * Cutting into batches succeeds exactly when every single entry fits the allocation limit, and then the batches
   * are the list, in order, numbered without a gap, each within both limits, and only the last is final.
   */
  lemma BatchesAreTheList(c: Config, es: seq<Entry>)
    requires c.maxEntries > 0
    ensures var r := Batches(c, FRESH, es);
            && (r.Ok? <==> forall i :: 0 <= i < |es| ==> !Over(c, Alloc(c, es[i])))
            && (r.Ok? ==> Concat(r.value) == es && Contiguous(c, r.value, 0))
  {
    BatchesFrom(c, FRESH, es);
    assert [] + es == es;
  }

  lemma {:induction false} AllocBounded(total: nat, xs: seq<Xattr>)
    requires total <= USIZE_MAX
    ensures XattrsAlloc(total, xs) <= USIZE_MAX
    decreases |xs|
  {
    if xs != [] {
      AllocBounded(SaturatingAdd(SaturatingAdd(total, |xs[0].name|), |xs[0].value|), xs[1..]);
    }
  }

  /**
   * An entry too large for the limit does not only fail to be added: the batch waiting before it is taken out of
   * the builder and goes with the error, its numbers used up.
   */
  lemma TooLargeDropsBatch(c: Config, st: State, e: Entry)
    requires Building(c, st) && Over(c, Alloc(c, e))
    ensures Push(c, st, e) == Pushed(Emitted(st), Err(InvalidData))
  {
    AllocBounded(NameAlloc(NameAlloc(SaturatingAdd(c.overhead, |e.path|), e.meta.userName), e.meta.groupName),
                 e.meta.xattrs);
    hide XattrsAlloc, NameAlloc;
    if st.entries == [] {
      assert Emitted(st) == st;
    }
  }

  /** How the receiver reads an entry: its path by components, and its type. */
  type View = Entry -> R.SourceEntry

  function Seen(view: View, es: seq<Entry>): (s: seq<R.SourceEntry>)
    ensures |s| == |es| && forall i :: 0 <= i < |es| ==> s[i] == view(es[i])
  {
    seq(|es|, i requires 0 <= i < |es| => view(es[i]))
  }

  function Feed(st: R.State, bs: seq<Batch>, view: View): R.Observed
    decreases |bs|
  {
    if bs == [] then R.Observed(st, M.Done(()))
    else
      var o := R.Observe(st, bs[0].baseIndex, Seen(view, bs[0].entries), bs[0].isFinal);
      if o.error.Failed? then o else Feed(o.state, bs[1..], view)
  }

  ghost predicate AllNormalize(view: View, es: seq<Entry>) {
    forall e :: e in es ==> R.Normalizes(view(e).path)
  }

  function PathsOf(view: View, es: seq<Entry>): set<M.Path> {
    set e | e in es :: R.Names(view(e).path)
  }

  function DirsOf(view: View, es: seq<Entry>): set<M.Path> {
    set e | e in es && view(e).fileType.Directory? :: R.Names(view(e).path)
  }

  function Numbers(from: nat, count: nat): (s: set<nat>)
    ensures forall k :: k in s <==> from <= k < from + count
    decreases count
  {
    if count == 0 then {} else {from} + Numbers(from + 1, count - 1)
  }

  /** The receiver has taken in `es` since `a`, under the next numbers. */
  ghost predicate TookIn(a: R.State, b: R.State, view: View, es: seq<Entry>) {
    && b.deleteMode == a.deleteMode
    && b.next == a.next + |es|
    && b.completed == a.completed + Numbers(a.next, |es|)
    && b.sources == a.sources + PathsOf(view, es)
    && b.directories == a.directories + DirsOf(view, es)
  }

  lemma TookInBoth(a: R.State, b: R.State, c: R.State, view: View, xs: seq<Entry>, ys: seq<Entry>)
    requires TookIn(a, b, view, xs) && TookIn(b, c, view, ys)
    ensures TookIn(a, c, view, xs + ys)
  {
    assert PathsOf(view, xs + ys) == PathsOf(view, xs) + PathsOf(view, ys);
    assert DirsOf(view, xs + ys) == DirsOf(view, xs) + DirsOf(view, ys);
    assert Numbers(a.next, |xs + ys|) == Numbers(a.next, |xs|) + Numbers(b.next, |ys|);
  }

  lemma TookInOne(a: R.State, view: View, e: Entry)
    ensures TookIn(a, R.See(a, a.next, view(e)), view, [e])
  {
    assert PathsOf(view, [e]) == {R.Names(view(e).path)};
    assert Numbers(a.next, 1) == {a.next};
    assert DirsOf(view, [e]) == if view(e).fileType.Directory? then {R.Names(view(e).path)} else {};
  }

  lemma {:induction false} SeesAll(st: R.State, view: View, es: seq<Entry>)
    ensures var (seen, ok) := R.SeeAll(st, st.next, Seen(view, es));
            && (ok <==> AllNormalize(view, es))
            && (ok ==> TookIn(st, seen, view, es) && seen.finalSeen == st.finalSeen)
    decreases |es|
  {
    hide R.Normalizes, R.Names;
    if es != [] {
      assert Seen(view, es)[1..] == Seen(view, es[1..]);
      var next := R.See(st, st.next, view(es[0]));
      TookInOne(st, view, es[0]);
      SeesAll(next, view, es[1..]);
      assert [es[0]] + es[1..] == es;
      var seen := R.SeeAll(next, next.next, Seen(view, es[1..])).0;
      if AllNormalize(view, es) {
        assert AllNormalize(view, es[1..]);
        TookInBoth(st, next, seen, view, [es[0]], es[1..]);
      }
    }
  }

  // A batch in its turn is taken in whole, unless one of its paths leads outside.
  lemma Observes(st: R.State, b: Batch, view: View)
    requires !st.finalSeen && b.baseIndex == st.next
    ensures var o := R.Observe(st, b.baseIndex, Seen(view, b.entries), b.isFinal);
            && (o.error.Done? <==> AllNormalize(view, b.entries))
            && (o.error.Done? ==> TookIn(st, o.state, view, b.entries) && o.state.finalSeen == b.isFinal)
  {
    hide Seen;
    SeesAll(st, view, b.entries);
  }

  lemma {:induction false} FeedsFrom(c: Config, st: R.State, bs: seq<Batch>, view: View, k: nat)
    requires !st.finalSeen && Contiguous(c, bs, st.next) && k <= |bs|
    ensures var o := Feed(st, bs, view);
            && (o.error.Done? <==> AllNormalize(view, Concat(bs)))
            && (o.error.Done? ==> TookIn(st, o.state, view, Concat(bs)) && o.state.finalSeen)
    ensures k < |bs| ==> !Feed(st, bs[..k], view).state.finalSeen
    decreases |bs|
  {
    hide R.Observe, TookIn, WithinLimits;
    var o := R.Observe(st, bs[0].baseIndex, Seen(view, bs[0].entries), bs[0].isFinal);
    Observes(st, bs[0], view);
    assert Concat(bs) == bs[0].entries + Concat(bs[1..]);
    assert k > 0 ==> bs[..k][1..] == bs[1..][..k - 1];
    if |bs| == 1 {
      assert Concat(bs) == bs[0].entries;
    } else if o.error.Done? {
      NextOf(st, o.state, view, bs[0].entries);
      FeedsFrom(c, o.state, bs[1..], view, if k == 0 then 0 else k - 1);
      if AllNormalize(view, Concat(bs[1..])) {
        TookInBoth(st, o.state, Feed(o.state, bs[1..], view).state, view, bs[0].entries, Concat(bs[1..]));
      }
    } else {
      StoppedEarly(st, bs[0], view);
    }
  }

  lemma NextOf(a: R.State, b: R.State, view: View, es: seq<Entry>)
    requires TookIn(a, b, view, es)
    ensures b.next == a.next + |es|
  {
  }

  lemma StoppedEarly(st: R.State, b: Batch, view: View)
    requires !st.finalSeen && R.Observe(st, b.baseIndex, Seen(view, b.entries), b.isFinal).error.Failed?
    ensures !R.Observe(st, b.baseIndex, Seen(view, b.entries), b.isFinal).state.finalSeen
  {
    SeeAllNotFinal(st, b.baseIndex, Seen(view, b.entries));
  }

  lemma {:induction false} SeeAllNotFinal(st: R.State, index: nat, es: seq<R.SourceEntry>)
    ensures R.SeeAll(st, index, es).0.finalSeen == st.finalSeen
    decreases |es|
  {
    hide R.Normalizes, R.Names;
    if es != [] && R.Normalizes(es[0].path) {
      SeeAllNotFinal(R.See(st, index, es[0]), index + 1, es[1..]);
    }
  }

  /**
   * The batches of a list feed the receiver: all are accepted exactly when every path stays inside the tree; then
   * the completed numbers are 0 to n - 1, the paths and directories are the list's, and nothing was ready for
   * deletion before the last batch.
   */
  lemma BatchesFeedReceiver(c: Config, es: seq<Entry>, mode: S.DeleteMode, view: View, k: nat)
    requires c.maxEntries > 0 && Batches(c, FRESH, es).Ok?
    ensures var bs := Batches(c, FRESH, es).value;
            var o := Feed(R.Fresh(mode), bs, view);
            && (o.error.Done? <==> AllNormalize(view, es))
            && (o.error.Done? ==>
                  && o.state == R.State(mode, PathsOf(view, es), DirsOf(view, es), Numbers(0, |es|), |es|, true)
                  && R.DeleteReady(o.state) == !mode.NoDelete?)
            && (k < |bs| ==> !R.DeleteReady(Feed(R.Fresh(mode), bs[..k], view).state))
  {
    hide Batches, Feed, Contiguous, Concat;
    BatchesAreTheList(c, es);
    var bs := Batches(c, FRESH, es).value;
    FeedsFrom(c, R.Fresh(mode), bs, view, if k <= |bs| then k else 0);
    assert {} + PathsOf(view, es) == PathsOf(view, es) && {} + DirsOf(view, es) == DirsOf(view, es);
    assert {} + Numbers(0, |es|) == Numbers(0, |es|);
  }
}
