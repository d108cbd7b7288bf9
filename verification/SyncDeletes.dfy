/** What a delete pass of a real run does. */
module SyncDeletes {
  import opened Wire
  import opened MemoryFs
  import opened PathOrder
  import opened SyncSpec
  import opened SyncEffects
  import opened SyncProgress

  /** A path where the delete pass over `todo` may have changed something. */
  ghost predicate Reached(dst: Path, todo: set<Path>, p: Path) {
    exists rel :: rel in todo && Under(p, dst + rel)
  }

  /** The entries to delete as they were listed: nothing has changed its kind since. */
  ghost predicate Listed(m: Nodes, dst: Path, dest: map<Path, Node>, todo: set<Path>)
    requires todo <= dest.Keys
  {
    forall rel :: rel in todo && dst + rel in m ==>
                    rel != [] && (m[dst + rel].fileType.Directory? <==> dest[rel].fileType.Directory?)
  }

  // Deepest first: removing one entry leaves all the others still to do.
  lemma ListedNext(m: Nodes, dst: Path, dest: map<Path, Node>, todo: set<Path>)
    requires todo <= dest.Keys && todo != {} && Listed(m, dst, dest, todo)
    ensures var rel := First(Deepest, todo);
            var k := RemoveTree(m, dst + rel);
            && Listed(k, dst, dest, todo - {rel})
            && (forall r :: r in todo - {rel} ==> (dst + r in k <==> dst + r in m))
  {
    hide RemoveTree;
    var rel := First(Deepest, todo);
    forall r | r in todo - {rel} ensures !Under(dst + r, dst + rel) {
      UnderRel(dst, r, rel);
      assert Before(Deepest, rel, r);
    }
  }


  lemma NextDelete(m: Nodes, dst: Path, dest: map<Path, Node>, todo: set<Path>)
    requires todo <= dest.Keys && todo != {} && Listed(m, dst, dest, todo)
    ensures var rel := First(Deepest, todo);
            Listed(m, dst, dest, todo - {rel})
  {
  }

  predicate AtLimit(o: Options, deleted: nat) {
    o.maxDelete.Some? && deleted >= o.maxDelete.value
  }

  // The four ways one turn of the delete loop can go.
  lemma DeletesTurn(o: Options, m: Nodes, dst: Path, dest: map<Path, Node>, todo: set<Path>, deleted: nat)
    requires todo <= dest.Keys && todo != {}
    ensures var rel := First(Deepest, todo);
            var rest := todo - {rel};
            var t := dest[rel].fileType;
            Deletes(o, m, dst, dest, todo, deleted) ==
            if dst + rel !in m then Deletes(o, m, dst, dest, rest, deleted)
            else if o.protect(rel, t) then
              Then(Run(m, [ProtectDelete(dst + rel)], None), Deletes(o, m, dst, dest, rest, deleted))
            else if AtLimit(o, deleted) then Fail(m, MaxDeleteExceeded(o.maxDelete.value))
            else Then(DeleteOne(o, m, dst + rel, t),
                      Deletes(o, DeleteOne(o, m, dst + rel, t).nodes, dst, dest, rest, deleted + 1))
  {
    hide DeleteOne, Then;
  }

  /** `k` comes from `m` by removing things at or below the entries in `todo`. */
  ghost predicate Pruned(m: Nodes, k: Nodes, dst: Path, todo: set<Path>) {
    && (forall p :: p in k ==> Get(k, p) == Get(m, p))
    && (forall p :: !Reached(dst, todo, p) ==> Get(k, p) == Get(m, p))
  }

  lemma PrunedMore(m: Nodes, k: Nodes, dst: Path, todo: set<Path>, rel: Path)
    requires rel in todo
    ensures Pruned(m, k, dst, todo - {rel}) ==> Pruned(m, k, dst, todo)
    ensures Pruned(RemoveTree(m, dst + rel), k, dst, todo - {rel}) ==> Pruned(m, k, dst, todo)
  {
    var n := RemoveTree(m, dst + rel);
    hide RemoveTree;
    forall p | !Reached(dst, todo, p) ensures !Reached(dst, todo - {rel}, p) && Get(n, p) == Get(m, p) {
    }
  }

  // In a real run a pass only removes, and what is left hangs together.
  lemma {:induction false} DeletesEffect(o: Options, m: Nodes, dst: Path, dest: map<Path, Node>, todo: set<Path>,
                                         deleted: nat)
    requires !o.dryRun && todo <= dest.Keys && Home(m, dst) && Listed(m, dst, dest, todo)
    ensures var r := Deletes(o, m, dst, dest, todo, deleted);
            Home(r.nodes, dst) && Pruned(m, r.nodes, dst, todo)
    decreases |todo|
  {
    assert todo == {} ==> Deletes(o, m, dst, dest, todo, deleted).nodes == m;
    hide RemoveTree, DeleteOne, Home, Listed, Pruned, Deletes;
    if todo != {} {
      var rel := First(Deepest, todo);
      var rest := todo - {rel};
      var k := RemoveTree(m, dst + rel);
      DeletesTurn(o, m, dst, dest, todo, deleted);
      NextDelete(m, dst, dest, todo);
      PrunedMore(m, Deletes(o, m, dst, dest, rest, deleted).nodes, dst, todo, rel);
      PrunedMore(m, Deletes(o, k, dst, dest, rest, deleted + 1).nodes, dst, todo, rel);
      DeletesEffect(o, m, dst, dest, rest, deleted);
      if dst + rel in m {
        DeletesStep(o, m, dst, dest, todo);
        DeletesEffect(o, k, dst, dest, rest, deleted + 1);
      }
    }
    PrunedSame(m, dst, todo);
  }

  lemma PrunedSame(m: Nodes, dst: Path, todo: set<Path>)
    ensures Pruned(m, m, dst, todo)
  {
  }

  lemma DeletesStep(o: Options, m: Nodes, dst: Path, dest: map<Path, Node>, todo: set<Path>)
    requires !o.dryRun && todo <= dest.Keys && todo != {} && Home(m, dst) && Listed(m, dst, dest, todo)
    requires dst + First(Deepest, todo) in m
    ensures var rel := First(Deepest, todo);
            var k := RemoveTree(m, dst + rel);
            var one := DeleteOne(o, m, dst + rel, dest[rel].fileType);
            && one.error.None? && one.nodes == k
            && one.report == [if dest[rel].fileType.Directory? then DeleteDir(dst + rel) else DeleteFile(dst + rel)]
            && Home(k, dst) && Listed(k, dst, dest, todo - {rel})
  {
    var rel := First(Deepest, todo);
    assert rel != [] && (m[dst + rel].fileType.Directory? <==> dest[rel].fileType.Directory?);
    hide DeleteOne, RemoveTree, Listed, Tree;
    UnderRel(dst, rel, []);
    DeleteOneEffect(o, m, dst, dst + rel, dest[rel].fileType);
    RemoveTreeEffect(m, dst, dst + rel);
    ListedNext(m, dst, dest, todo);
  }

  /** Without a limit a real pass does not fail. */
  lemma {:induction false} NoLimitNoError(o: Options, m: Nodes, dst: Path, dest: map<Path, Node>, todo: set<Path>,
                                          deleted: nat)
    requires !o.dryRun && o.maxDelete.None? && todo <= dest.Keys && Home(m, dst) && Listed(m, dst, dest, todo)
    ensures Deletes(o, m, dst, dest, todo, deleted).error.None?
    decreases |todo|
  {
    hide DeleteOne, Deletes, IsFirst, Home, Listed, RemoveTree;
    if todo == {} {
      DeletesNone(o, m, dst, dest, deleted);
    } else {
      FirstIn(Deepest, todo);
      var rel := First(Deepest, todo);
      DeletesTurn(o, m, dst, dest, todo, deleted);
      NextDelete(m, dst, dest, todo);
      NoLimitNoError(o, m, dst, dest, todo - {rel}, deleted);
      if dst + rel in m {
        DeletesStep(o, m, dst, dest, todo);
        NoLimitNoError(o, RemoveTree(m, dst + rel), dst, dest, todo - {rel}, deleted + 1);
      }
    }
  }

  function Deletions(report: seq<Action>): nat {
    if report == [] then 0
    else Deletions(report[..|report| - 1]) + if report[|report| - 1].DeleteFile?
      || report[|report| - 1].DeleteDir? then 1 else 0
  }

  lemma {:induction false} DeletionsAdd(a: seq<Action>, b: seq<Action>)
    ensures Deletions(a + b) == Deletions(a) + Deletions(b)
    decreases |b|
  {
    if b == [] {
      assert a + b == a;
    } else {
      DeletionsAdd(a, b[..|b| - 1]);
      assert (a + b)[..|a + b| - 1] == a + b[..|b| - 1];
    }
  }

  lemma OneDeletion(a: Action)
    ensures Deletions([a]) <= 1
    ensures a.ProtectDelete? ==> Deletions([a]) == 0
  {
    assert [a][..0] == [];
  }

  /** A pass never deletes more often than it may, in a dry run or a real one, failing or not. */
  lemma {:induction false} DeletesWithinLimit(o: Options, m: Nodes, dst: Path, dest: map<Path, Node>, todo: set<Path>,
                                              deleted: nat)
    requires todo <= dest.Keys && o.maxDelete.Some? && deleted <= o.maxDelete.value
    ensures deleted + Deletions(Deletes(o, m, dst, dest, todo, deleted).report) <= o.maxDelete.value
    decreases |todo|
  {
    hide Deletions, DeleteOne, IsFirst, Deletes;
    if todo == {} {
      NothingDeleted(o, m, dst, dest, deleted);
    } else {
      FirstIn(Deepest, todo);
      var rel := First(Deepest, todo);
      var rest := todo - {rel};
      var one := DeleteOne(o, m, dst + rel, dest[rel].fileType);
      DeletesTurn(o, m, dst, dest, todo, deleted);
      DeletesWithinLimit(o, m, dst, dest, rest, deleted);
      DeletionsAdd([ProtectDelete(dst + rel)], Deletes(o, m, dst, dest, rest, deleted).report);
      OneDeletion(ProtectDelete(dst + rel));
      if deleted < o.maxDelete.value {
        DeletesWithinLimit(o, one.nodes, dst, dest, rest, deleted + 1);
        OneAction(o, m, dst + rel, dest[rel].fileType);
        DeletionsAdd(one.report, Deletes(o, one.nodes, dst, dest, rest, deleted + 1).report);
      }
      NothingDeleted(o, m, dst, dest, deleted);
    }
  }

  lemma OneAction(o: Options, m: Nodes, path: Path, t: FileType)
    ensures Deletions(DeleteOne(o, m, path, t).report) <= 1
  {
    OneDeletion(DeleteDir(path));
    OneDeletion(DeleteFile(path));
  }

  lemma NothingDeleted(o: Options, m: Nodes, dst: Path, dest: map<Path, Node>, deleted: nat)
    ensures Deletions([]) == 0 && Deletes(o, m, dst, dest, {}, deleted).report == []
  {
  }

  /** Nothing protects the entry. */
  predicate Open(o: Options, dest: map<Path, Node>, rel: Path)
    requires rel in dest
  {
    !o.protect(rel, dest[rel].fileType)
  }

  /** The unprotected entries of `todo` up to and including `d`, in deletion order. */
  function UpTo(o: Options, dest: map<Path, Node>, todo: set<Path>, d: Path): set<Path>
    requires todo <= dest.Keys
  {
    set rel | rel in todo && Open(o, dest, rel) && (rel == d || Before(Deepest, rel, d))
  }

  /** The limit on deletions, `deleted` of which are used up, is not exceeded up to `d`. */
  predicate Met(o: Options, dest: map<Path, Node>, todo: set<Path>, deleted: nat, d: Path)
    requires todo <= dest.Keys
  {
    o.maxDelete.None? || deleted + |UpTo(o, dest, todo, d)| <= o.maxDelete.value
  }

  function Cost(o: Options, dest: map<Path, Node>, rel: Path): nat
    requires rel in dest
  {
    if Open(o, dest, rel) then 1 else 0
  }

  /** Turning the delete loop once leaves the count for what is still to come. */
  lemma UpToTurn(o: Options, dest: map<Path, Node>, todo: set<Path>, d: Path)
    requires todo <= dest.Keys && d in todo
    ensures var rel := First(Deepest, todo);
            |UpTo(o, dest, todo, d)| == Cost(o, dest, rel) + if d == rel then 0 else |UpTo(o, dest, todo - {rel}, d)|
  {
    hide Before;
    var rel := First(Deepest, todo);
    var one := if Open(o, dest, rel) then {rel} else {};
    if d == rel {
      forall r | r in todo && r != rel ensures !Before(Deepest, r, rel) {
        assert Before(Deepest, rel, r);
        BeforeTotal(Deepest, rel, r);
      }
      assert UpTo(o, dest, todo, d) == one;
    } else {
      assert Before(Deepest, rel, d);
      assert UpTo(o, dest, todo, d) == one + UpTo(o, dest, todo - {rel}, d);
    }
  }

  lemma MetTurn(o: Options, dest: map<Path, Node>, todo: set<Path>, deleted: nat, d: Path)
    requires todo <= dest.Keys && d in todo
    ensures var rel := First(Deepest, todo);
            && (Open(o, dest, rel) && AtLimit(o, deleted) ==> !Met(o, dest, todo, deleted, d))
            && (d != rel ==>
                (Met(o, dest, todo, deleted, d) <==> Met(o, dest, todo - {rel}, deleted + Cost(o, dest, rel), d)))
            && (d == rel ==>
                (Met(o, dest, todo, deleted, d) <==>
                 o.maxDelete.None? || deleted + Cost(o, dest, rel) <= o.maxDelete.value))
  {
    hide UpTo, IsFirst;
    FirstIn(Deepest, todo);
    UpToTurn(o, dest, todo, d);
  }

  /** `q` lies at or below an unprotected entry of `todo` that the limit lets the pass delete. */
  ghost predicate Doomed(o: Options, dst: Path, dest: map<Path, Node>, todo: set<Path>, deleted: nat, q: Path)
    requires todo <= dest.Keys
  {
    exists rel :: rel in todo && Open(o, dest, rel) && Met(o, dest, todo, deleted, rel) && Under(q, dst + rel)
  }

  /** The entries that are still there. */
  function Present(m: Nodes, dst: Path, todo: set<Path>): set<Path> {
    set rel | rel in todo && dst + rel in m
  }

  /**
   * Exactly what survives a real pass, limited or not: a path stays unless it lies at or below an unprotected entry
   * among the first that may go. Protecting an entry itself is not enough when a directory above it goes.
   */
  lemma {:induction false} SurvivesExactly(
      o: Options, m: Nodes, dst: Path, dest: map<Path, Node>, todo: set<Path>, deleted: nat, q: Path)
    requires !o.dryRun && todo <= dest.Keys && Home(m, dst) && Listed(m, dst, dest, todo)
    ensures q in Deletes(o, m, dst, dest, todo, deleted).nodes <==>
            q in m && !Doomed(o, dst, dest, Present(m, dst, todo), deleted, q)
    decreases |todo|
  {
    hide Deletes, DeleteOne, Home, Listed, IsFirst, Doomed, Open, RemoveTree, Before;
    if todo == {} {
      DeletesNone(o, m, dst, dest, deleted);
      DoomedNone(o, dst, dest, deleted, q);
      assert Present(m, dst, todo) == {};
    } else {
      FirstIn(Deepest, todo);
      var rel := First(Deepest, todo);
      var rest := todo - {rel};
      DeletesTurn(o, m, dst, dest, todo, deleted);
      NextDelete(m, dst, dest, todo);
      PresentTurn(m, dst, todo);
      if dst + rel !in m {
        SurvivesExactly(o, m, dst, dest, rest, deleted, q);
      } else {
        DoomedTurn(o, dst, dest, Present(m, dst, todo), deleted, q);
        OpenIs(o, dest, rel);
        if o.protect(rel, dest[rel].fileType) {
          SurvivesExactly(o, m, dst, dest, rest, deleted, q);
        } else if !AtLimit(o, deleted) {
          var k := RemoveTree(m, dst + rel);
          DeletesStep(o, m, dst, dest, todo);
          RemoveTreeKeys(m, dst + rel, q);
          SurvivesExactly(o, k, dst, dest, rest, deleted + 1, q);
        }
      }
    }
  }

  lemma OpenIs(o: Options, dest: map<Path, Node>, rel: Path)
    requires rel in dest
    ensures Open(o, dest, rel) <==> !o.protect(rel, dest[rel].fileType)
  {
  }

  lemma RemoveTreeKeys(m: Nodes, p: Path, q: Path)
    ensures q in RemoveTree(m, p) <==> q in m && !Under(q, p)
  {
  }

  // What is still there, after one turn: the first is gone, the others stand as they stood.
  lemma PresentTurn(m: Nodes, dst: Path, todo: set<Path>)
    requires todo != {}
    ensures var rel := First(Deepest, todo);
            var rest := todo - {rel};
            if dst + rel !in m then Present(m, dst, rest) == Present(m, dst, todo)
            else
              && Present(m, dst, todo) != {} && First(Deepest, Present(m, dst, todo)) == rel
              && Present(m, dst, rest) == Present(m, dst, todo) - {rel}
              && Present(RemoveTree(m, dst + rel), dst, rest) == Present(m, dst, rest)
  {
    hide RemoveTree;
    var rel := First(Deepest, todo);
    if dst + rel in m {
      var there := Present(m, dst, todo);
      assert rel in there;
      assert IsFirst(Deepest, there, rel);
      FirstIsUnique(Deepest, there, rel);
      forall r | r in todo - {rel} ensures dst + r in RemoveTree(m, dst + rel) <==> dst + r in m {
        UnderRel(dst, r, rel);
        assert Before(Deepest, rel, r);
        RemoveTreeKeys(m, dst + rel, dst + r);
      }
    }
  }

  lemma DoomedTurn(o: Options, dst: Path, dest: map<Path, Node>, todo: set<Path>, deleted: nat, q: Path)
    requires todo <= dest.Keys && todo != {}
    ensures var rel := First(Deepest, todo);
            && (Open(o, dest, rel) && AtLimit(o, deleted) ==> !Doomed(o, dst, dest, todo, deleted, q))
            && (!(Open(o, dest, rel) && AtLimit(o, deleted)) ==>
                  (Doomed(o, dst, dest, todo, deleted, q) <==>
                     || (Open(o, dest, rel) && Under(q, dst + rel))
                     || Doomed(o, dst, dest, todo - {rel}, deleted + Cost(o, dest, rel), q)))
  {
    hide Met, IsFirst, Open, Before;
    FirstIn(Deepest, todo);
    var rel := First(Deepest, todo);
    var rest := todo - {rel};
    forall d | d in todo
      ensures Open(o, dest, rel) && AtLimit(o, deleted) ==> !Met(o, dest, todo, deleted, d)
      ensures d != rel ==> (Met(o, dest, todo, deleted, d) <==> Met(o, dest, rest, deleted + Cost(o, dest, rel), d))
    {
      MetTurn(o, dest, todo, deleted, d);
    }
    MetTurn(o, dest, todo, deleted, rel);
  }

  lemma DoomedNone(o: Options, dst: Path, dest: map<Path, Node>, deleted: nat, q: Path)
    ensures !Doomed(o, dst, dest, {}, deleted, q)
  {
  }

  lemma DeletesNone(o: Options, m: Nodes, dst: Path, dest: map<Path, Node>, deleted: nat)
    ensures Deletes(o, m, dst, dest, {}, deleted) == Idle(m)
  {
  }
}
