/** The codec's laws can be met: bytes stored behind markers, a flush written out in full. */
module TokenStored {
  import opened Wire
  import opened TokenSpec

  const MARK: byte := 1

  function Stored(b: seq<byte>): seq<byte> {
    if b == [] then [] else [MARK, b[0]] + Stored(b[1..])
  }

  function Deflate(h: seq<Op>): seq<byte> {
    if h == [] then []
    else Deflate(h[..|h| - 1]) + match h[|h| - 1] case Data(b) => Stored(b) case Sync => [2] + SYNC_TAIL
  }

  /** Marked bytes come out, all others are skipped. */
  function Inflated(s: seq<byte>): seq<byte> {
    if s == [] then []
    else if s[0] != MARK then Inflated(s[1..])
    else if |s| == 1 then []
    else [s[1]] + Inflated(s[2..])
  }

  const STORED := Codec(h => Deflate(h), s => Some(Inflated(s)))

  /** The input does not break off behind a marker. */
  predicate Whole(s: seq<byte>) {
    if s == [] then true
    else if s[0] != MARK then Whole(s[1..])
    else |s| > 1 && Whole(s[2..])
  }

  lemma {:induction false} WholeThen(a: seq<byte>, b: seq<byte>)
    requires Whole(a)
    ensures Inflated(a + b) == Inflated(a) + Inflated(b) && (Whole(a + b) <==> Whole(b))
    decreases |a|
  {
    if a == [] {
      assert a + b == b;
    } else if a[0] != MARK {
      WholeThen(a[1..], b);
      assert (a + b)[1..] == a[1..] + b;
    } else {
      WholeThen(a[2..], b);
      assert (a + b)[2..] == a[2..] + b;
    }
  }

  lemma {:induction false} InflatedGrows(p: seq<byte>, q: seq<byte>)
    requires p <= q
    ensures Inflated(p) <= Inflated(q)
    decreases |p|
  {
    if p != [] {
      assert p[0] == q[0];
      if p[0] != MARK {
        InflatedGrows(p[1..], q[1..]);
      } else if |p| > 1 {
        InflatedGrows(p[2..], q[2..]);
      }
    }
  }

  lemma {:induction false} StoredComesBack(b: seq<byte>)
    ensures Whole(Stored(b)) && Inflated(Stored(b)) == b
  {
    if b != [] {
      StoredComesBack(b[1..]);
      assert Stored(b)[2..] == Stored(b[1..]);
    }
  }

  lemma TailIsSkipped()
    ensures Whole([2] + SYNC_TAIL) && Inflated([2] + SYNC_TAIL) == []
  {
    var s: seq<byte> := [2] + SYNC_TAIL;
    assert s[1..] == [0, 0, 0xff, 0xff] && s[2..] == [0, 0xff, 0xff] && s[3..] == [0xff, 0xff] && s[4..] == [0xff]
      && s[5..] == [];
    assert s[1..][1..] == s[2..] && s[2..][1..] == s[3..] && s[3..][1..] == s[4..] && s[4..][1..] == s[5..];
  }

  lemma {:induction false} AllComesBack(h: seq<Op>)
    ensures Whole(Deflate(h)) && Inflated(Deflate(h)) == Given(h)
    decreases |h|
  {
    if h != [] {
      var front := h[..|h| - 1];
      AllComesBack(front);
      match h[|h| - 1] {
        case Data(b) =>
          StoredComesBack(b);
          WholeThen(Deflate(front), Stored(b));
        case Sync =>
          TailIsSkipped();
          WholeThen(Deflate(front), [2] + SYNC_TAIL);
      }
    }
  }

  lemma {:induction false} SyncedIsBefore(h: seq<Op>)
    ensures Deflate(Synced(h)) <= Deflate(h)
    decreases |h|
  {
    if EndsInData(h) {
      SyncedIsBefore(h[..|h| - 1]);
    }
  }

  /** So what is proved from the laws is not proved from nothing. */
  lemma StoredIsLawful()
    ensures Lawful(STORED)
  {
    forall h, op ensures STORED.deflate(h) <= STORED.deflate(h + [op]) {
      assert (h + [op])[..|h|] == h;
    }
    forall h | EndsInBytes(h)
      ensures Flushes(STORED.deflate(h), STORED.deflate(h + [Sync]), STORED.deflate(Synced(h))) {
      assert (h + [Sync])[..|h|] == h;
      SyncedIsBefore(h);
    }
    forall h, p, q | p <= q && q <= STORED.deflate(h) ensures Grows(STORED.inflate(p), STORED.inflate(q)) {
      InflatedGrows(p, q);
    }
    forall h | !EndsInData(h) ensures STORED.inflate(STORED.deflate(h)) == Some(Given(h)) {
      AllComesBack(h);
    }
  }
}
