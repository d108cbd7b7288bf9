/** The orders in which the engine visits paths. */
module PathOrder {
  import opened MemoryFs

  /** Component-wise order, a path before everything below it. */
  predicate LexLess(a: Path, b: Path) {
    if b == [] then false
    else if a == [] then true
    else if a[0] != b[0] then a[0] < b[0]
    else LexLess(a[1..], b[1..])
  }

  /** Forward as an ordered map iterates, Backward its reverse, Deepest as deletions are planned. */
  datatype Order = Forward | Backward | Deepest

  predicate Before(o: Order, a: Path, b: Path) {
    match o
    case Forward => LexLess(a, b)
    case Backward => LexLess(b, a)
    case Deepest => |a| > |b| || (|a| == |b| && LexLess(b, a))
  }

  lemma {:induction false} LexTotal(a: Path, b: Path)
    ensures a == b ==> !LexLess(a, b)
    ensures a != b ==> LexLess(a, b) != LexLess(b, a)
  {
    if a != [] && b != [] && a[0] == b[0] {
      LexTotal(a[1..], b[1..]);
      assert a == [a[0]] + a[1..] && b == [b[0]] + b[1..];
    }
  }

  lemma {:induction false} LexTransitive(a: Path, b: Path, c: Path)
    requires LexLess(a, b) && LexLess(b, c)
    ensures LexLess(a, c)
  {
    if a != [] && b != [] && c != [] && a[0] == b[0] == c[0] {
      LexTransitive(a[1..], b[1..], c[1..]);
    }
  }

  /** An ancestor comes before what lies below it. */
  lemma {:induction false} AncestorFirst(a: Path, b: Path)
    requires Under(b, a) && a != b
    ensures LexLess(a, b)
  {
    if a != [] {
      AncestorFirst(a[1..], b[1..]);
      assert a == [a[0]] + a[1..] && b == [b[0]] + b[1..];
    }
  }

  lemma BeforeTotal(o: Order, a: Path, b: Path)
    ensures a == b ==> !Before(o, a, b)
    ensures a != b ==> Before(o, a, b) != Before(o, b, a)
  {
    LexTotal(a, b);
    LexTotal(b, a);
  }

  lemma BeforeTransitive(o: Order, a: Path, b: Path, c: Path)
    requires Before(o, a, b) && Before(o, b, c)
    ensures Before(o, a, c)
  {
    if LexLess(a, b) && LexLess(b, c) {
      LexTransitive(a, b, c);
    }
    if LexLess(c, b) && LexLess(b, a) {
      LexTransitive(c, b, a);
    }
  }

  predicate IsFirst(o: Order, s: set<Path>, p: Path) {
    p in s && forall q :: q in s && q != p ==> Before(o, p, q)
  }

  lemma {:induction false} FirstExists(o: Order, s: set<Path>)
    requires s != {}
    ensures exists p :: IsFirst(o, s, p)
    decreases |s|
  {
    var x :| x in s;
    var rest := s - {x};
    if rest == {} {
      assert forall q :: q in s && q != x ==> q in rest;
      assert IsFirst(o, s, x);
    } else {
      FirstExists(o, rest);
      var y :| IsFirst(o, rest, y);
      BeforeTotal(o, x, y);
      if Before(o, y, x) {
        assert IsFirst(o, s, y);
      } else {
        FirstWithout(o, s, x, y);
      }
    }
  }

  lemma FirstWithout(o: Order, s: set<Path>, x: Path, y: Path)
    requires x in s && IsFirst(o, s - {x}, y) && Before(o, x, y)
    ensures IsFirst(o, s, x)
  {
    hide Before;
    forall q | q in s && q != x ensures Before(o, x, q) {
      if q != y {
        assert q in s - {x};
        BeforeTransitive(o, x, y, q);
      }
    }
  }

  ghost function First(o: Order, s: set<Path>): (p: Path)
    requires s != {}
    ensures IsFirst(o, s, p)
  {
    FirstExists(o, s);
    var p :| IsFirst(o, s, p);
    p
  }

  lemma FirstIn(o: Order, s: set<Path>)
    ensures s != {} ==> First(o, s) in s
  {
  }

  lemma FirstIsUnique(o: Order, s: set<Path>, p: Path)
    requires IsFirst(o, s, p)
    ensures p == First(o, s)
  {
    BeforeTotal(o, p, First(o, s));
  }
}
