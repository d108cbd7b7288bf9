/** The in-memory filesystem the sync engine runs over: a map from component paths to nodes. */
module MemoryFs {
  import opened Wire

  /** A path component, named by its rank in byte order: the engine only compares and orders names. */
  type Name = nat
  type Path = seq<Name>

  datatype FileType = File | Directory | Special

  datatype Node = Node(fileType: FileType, bytes: seq<byte>, modified: Option<int>)

  type Nodes = map<Path, Node>

  const EMPTY_DIR := Node(Directory, [], None)

  datatype FsError =
    | NotFound(path: Path)
    | NotDirectory(path: Path)
    | DestinationInsideSource
    | MaxDeleteExceeded(limit: nat)
    | InvalidPortablePath
    | Unsupported

  datatype FsResult<+T> = Done(value: T) | Failed(error: FsError) {
    predicate IsFailure() {
      Failed?
    }

    function PropagateFailure<U>(): FsResult<U>
      requires Failed?
    {
      Failed(error)
    }

    function Extract(): T
      requires Done?
    {
      value
    }
  }

  function Parent(p: Path): Path
    requires p != []
  {
    p[..|p| - 1]
  }

  function Get(n: Nodes, p: Path): Option<Node> {
    if p in n then Some(n[p]) else None
  }

  /** `p` is `root` or lies below it. */
  predicate Under(p: Path, root: Path) {
    root <= p
  }

  /** Every missing prefix of `p`, itself included, becomes an empty directory. */
  function CreateDirAll(n: Nodes, p: Path): (r: Nodes)
    ensures forall q :: q in r <==> q in n || Under(p, q)
    ensures forall q :: q in n ==> r[q] == n[q]
    ensures forall q :: q in r && q !in n ==> r[q] == EMPTY_DIR
  {
    var prefixes := set i | 0 <= i <= |p| :: p[..i];
    assert forall q :: Under(p, q) ==> q == p[..|q|] && q in prefixes;
    n + map q | q in prefixes && q !in n :: EMPTY_DIR
  }

  function WriteFile(n: Nodes, p: Path, bytes: seq<byte>): Nodes {
    (if p == [] then n else CreateDirAll(n, Parent(p)))[p := Node(File, bytes, None)]
  }

  function ReadFile(n: Nodes, p: Path): FsResult<seq<byte>> {
    if p !in n then Failed(NotFound(p))
    else if !n[p].fileType.File? then Failed(Unsupported)
    else Done(n[p].bytes)
  }

  function RemoveFile(n: Nodes, p: Path): FsResult<Nodes> {
    if p !in n then Failed(NotFound(p))
    else if n[p].fileType.Directory? then Failed(Unsupported)
    else Done(n - {p})
  }

  function RemoveTree(n: Nodes, p: Path): (r: Nodes)
    ensures forall q :: q in r <==> q in n && !Under(q, p)
    ensures forall q :: q in r ==> r[q] == n[q]
  {
    map q | q in n && !Under(q, p) :: n[q]
  }

  /** A directory and everything below it; the root is refused. */
  function RemoveDirAll(n: Nodes, p: Path): FsResult<Nodes> {
    if p == [] then Failed(Unsupported)
    else if forall q :: q in n ==> !Under(q, p) then Failed(NotFound(p))
    else Done(RemoveTree(n, p))
  }

  function Children(n: Nodes, p: Path): set<Path> {
    set q | q in n && q != [] && Parent(q) == p
  }

  function List(n: Nodes, p: Path): FsResult<set<Path>> {
    if p !in n then Failed(NotFound(p))
    else if !n[p].fileType.Directory? then Failed(NotDirectory(p))
    else Done(Children(n, p))
  }

  function SetMtime(n: Nodes, p: Path, t: int): FsResult<Nodes> {
    if p !in n then Failed(NotFound(p)) else Done(n[p := n[p].(modified := Some(t))])
  }

  /** Lengths first, then contents. */
  function FilesEqual(n: Nodes, left: Path, right: Path): FsResult<bool> {
    if left !in n then Failed(NotFound(left))
    else if right !in n then Failed(NotFound(right))
    else if |n[left].bytes| != |n[right].bytes| then Done(false)
    else
      var a :- ReadFile(n, left);
      var b :- ReadFile(n, right);
      Done(a == b)
  }

  /** What lies strictly below `root` hangs together: every node's parent is there and is a directory. */
  ghost predicate Tree(n: Nodes, root: Path) {
    forall p :: p in n && Under(p, root) && p != root ==> Parent(p) in n && n[Parent(p)].fileType.Directory?
  }

  // Under a tree's root, every ancestor of a node is a directory that is there.
  lemma {:induction false} AncestorsAreDirs(n: Nodes, root: Path, p: Path, a: Path)
    requires Tree(n, root) && p in n && root <= a && a <= p && a != p
    ensures a in n && n[a].fileType.Directory?
    decreases |p|
  {
    assert root <= p;
    var up := Parent(p);
    assert p != root;
    if up != a {
      assert a <= up;
      AncestorsAreDirs(n, root, up, a);
    }
  }

  // Nothing hangs below a path that is absent, or below a node that is no directory.
  lemma NothingBelow(n: Nodes, root: Path, a: Path, p: Path)
    requires Tree(n, root) && root <= a && a <= p && a != p
    requires a !in n || !n[a].fileType.Directory?
    ensures p !in n
  {
    if p in n {
      AncestorsAreDirs(n, root, p, a);
    }
  }

  lemma RootOnly(n: Nodes, p: Path)
    ensures CreateDirAll(n, p[..0]) == if [] in n then n else n[[] := EMPTY_DIR]
  {
    hide CreateDirAll;
    assert forall q :: Under(p[..0], q) <==> q == [];
  }

  lemma OneDeeper(n: Nodes, p: Path, i: nat)
    requires i < |p|
    ensures var m := CreateDirAll(n, p[..i]);
            CreateDirAll(n, p[..i + 1]) == if p[..i + 1] in m then m else m[p[..i + 1] := EMPTY_DIR]
  {
    hide CreateDirAll;
    forall q ensures Under(p[..i + 1], q) <==> Under(p[..i], q) || q == p[..i + 1] {
      if Under(p[..i + 1], q) && |q| <= i {
        assert q == p[..i + 1][..|q|] == p[..i][..|q|];
      }
      assert p[..i] <= p[..i + 1];
    }
  }

  class MemoryFileSystem {
    var nodes: Nodes

    constructor ()
      ensures nodes == map[[] := EMPTY_DIR]
    {
      nodes := map[[] := EMPTY_DIR];
    }

    /** Walks down from the root, adding each directory that is not there. */
    method MakeDirs(p: Path)
      modifies this
      ensures nodes == CreateDirAll(old(nodes), p)
    {
      hide CreateDirAll;
      ghost var n := nodes;
      RootOnly(n, p);
      if [] !in nodes {
        nodes := nodes[[] := EMPTY_DIR];
      }
      var i := 0;
      while i < |p|
        invariant 0 <= i <= |p|
        invariant nodes == CreateDirAll(n, p[..i])
      {
        var current := p[..i + 1];
        OneDeeper(n, p, i);
        if current !in nodes {
          nodes := nodes[current := EMPTY_DIR];
        }
        i := i + 1;
      }
      assert p[..i] == p;
    }

    method Write(p: Path, bytes: seq<byte>)
      modifies this
      ensures nodes == WriteFile(old(nodes), p, bytes)
    {
      if p != [] {
        MakeDirs(Parent(p));
      }
      nodes := nodes[p := Node(File, bytes, None)];
    }

    /** Copies by reading the source whole, then writing. */
    method CopyFile(source: Path, target: Path) returns (r: FsResult<nat>)
      modifies this
      ensures match ReadFile(old(nodes), source)
              case Failed(e) => r == Failed(e) && nodes == old(nodes)
              case Done(b) => r == Done(|b|) && nodes == WriteFile(old(nodes), target, b)
    {
      var bytes :- ReadFile(nodes, source);
      Write(target, bytes);
      r := Done(|bytes|);
    }

    method Unlink(p: Path) returns (r: FsResult<()>)
      modifies this
      ensures match RemoveFile(old(nodes), p)
              case Failed(e) => r == Failed(e) && nodes == old(nodes)
              case Done(n) => r == Done(()) && nodes == n
    {
      if p !in nodes {
        return Failed(NotFound(p));
      }
      if nodes[p].fileType.Directory? {
        return Failed(Unsupported);
      }
      nodes := nodes - {p};
      r := Done(());
    }

    /** Collects the doomed keys, then removes them one by one. */
    method RemoveDirs(p: Path) returns (r: FsResult<()>)
      modifies this
      ensures match RemoveDirAll(old(nodes), p)
              case Failed(e) => r == Failed(e) && nodes == old(nodes)
              case Done(n) => r == Done(()) && nodes == n
    {
      if p == [] {
        return Failed(Unsupported);
      }
      var keys := set q | q in nodes && Under(q, p);
      if keys == {} {
        assert forall q :: q in nodes ==> q !in keys;
        return Failed(NotFound(p));
      }
      assert exists q :: q in keys;
      ghost var n, doomed := nodes, keys;
      while keys != {}
        invariant keys <= doomed
        invariant nodes == n - (doomed - keys)
        decreases keys
      {
        var q :| q in keys;
        nodes := nodes - {q};
        keys := keys - {q};
      }
      assert nodes == RemoveTree(n, p);
      r := Done(());
    }

    method Touch(p: Path, t: int) returns (r: FsResult<()>)
      modifies this
      ensures match SetMtime(old(nodes), p, t)
              case Failed(e) => r == Failed(e) && nodes == old(nodes)
              case Done(n) => r == Done(()) && nodes == n
    {
      if p !in nodes {
        return Failed(NotFound(p));
      }
      nodes := nodes[p := nodes[p].(modified := Some(t))];
      r := Done(());
    }
  }
}
