/** Block signatures, the greedy matcher and the application of its tokens. */
module Delta {
  import opened Wire
  import RollSum
  import Seqs

  type Strong = seq<byte> -> seq<byte>

  datatype Signature = Signature(index: nat, offset: nat, len: nat, weak: nat, strong: seq<byte>)

  datatype Token = Literal(bytes: seq<byte>) | Copy(offset: nat, len: nat)

  // Signatures of a basis.

  function Sign(digest: Strong, basis: seq<byte>, n: nat, i: nat): (s: Signature)
    requires n > 0 && i * n < |basis|
    ensures s.len > 0 && s.offset + s.len <= |basis|
  {
    var end := if |basis| - i * n < n then |basis| else i * n + n;
    var block := basis[i * n..end];
    Signature(i, i * n, |block|, RollSum.Weak(block), digest(block))
  }

  function SignaturesFrom(digest: Strong, basis: seq<byte>, n: nat, i: nat): seq<Signature>
    requires n > 0
    decreases |basis| - i * n
  {
    if i * n >= |basis| then []
    else
      assert (i + 1) * n == i * n + n;
      [Sign(digest, basis, n, i)] + SignaturesFrom(digest, basis, n, i + 1)
  }

  function Signatures(digest: Strong, basis: seq<byte>, n: nat): Result<seq<Signature>> {
    if n == 0 then Err(InvalidInput) else Ok(SignaturesFrom(digest, basis, n, 0))
  }

  /** A signature speaks of a non-empty block that is in the basis. */
  predicate SignatureOf(digest: Strong, basis: seq<byte>, s: Signature) {
    && s.len > 0 && s.offset + s.len <= |basis|
    && s.weak == RollSum.Weak(basis[s.offset..s.offset + s.len])
    && s.strong == digest(basis[s.offset..s.offset + s.len])
  }

  lemma {:induction false} SignaturesSpeak(digest: Strong, basis: seq<byte>, n: nat, i: nat)
    requires n > 0
    ensures forall s :: s in SignaturesFrom(digest, basis, n, i) ==> SignatureOf(digest, basis, s)
    decreases |basis| - i * n
  {
    hide RollSum.Weak;
    if i * n < |basis| {
      assert (i + 1) * n == i * n + n;
      SignaturesSpeak(digest, basis, n, i + 1);
    }
  }

  function BlocksOf(basis: seq<byte>, sigs: seq<Signature>): seq<byte> {
    if sigs == [] then []
    else (if sigs[0].offset + sigs[0].len <= |basis| then basis[sigs[0].offset..sigs[0].offset + sigs[0].len] else [])
         + BlocksOf(basis, sigs[1..])
  }

  lemma {:induction false} SignaturesNumbered(digest: Strong, basis: seq<byte>, n: nat, i: nat)
    requires n > 0
    ensures forall k :: 0 <= k < |SignaturesFrom(digest, basis, n, i)| ==>
              SignaturesFrom(digest, basis, n, i)[k].index == i + k
    decreases |basis| - i * n
  {
    hide RollSum.Weak;
    if i * n < |basis| {
      assert (i + 1) * n == i * n + n;
      SignaturesNumbered(digest, basis, n, i + 1);
    }
  }

  lemma BlocksFirst(basis: seq<byte>, s: Signature, rest: seq<Signature>)
    requires s.offset + s.len <= |basis|
    ensures BlocksOf(basis, [s] + rest) == basis[s.offset..s.offset + s.len] + BlocksOf(basis, rest)
  {
    assert ([s] + rest)[1..] == rest;
  }

  // The signed blocks, in order, are the basis: none is missed and none is signed twice.
  lemma {:induction false} SignaturesCover(digest: Strong, basis: seq<byte>, n: nat, i: nat)
    requires n > 0 && i * n <= |basis| + n
    ensures BlocksOf(basis, SignaturesFrom(digest, basis, n, i)) == if i * n < |basis| then basis[i * n..] else []
    ensures forall k :: 0 <= k < |SignaturesFrom(digest, basis, n, i)| ==>
              SignaturesFrom(digest, basis, n, i)[k].index == i + k
    decreases |basis| - i * n
  {
    hide RollSum.Weak, BlocksOf;
    SignaturesNumbered(digest, basis, n, i);
    if i * n < |basis| {
      assert (i + 1) * n == i * n + n;
      SignaturesCover(digest, basis, n, i + 1);
      var s := Sign(digest, basis, n, i);
      BlocksFirst(basis, s, SignaturesFrom(digest, basis, n, i + 1));
      assert basis[i * n..] == basis[s.offset..s.offset + s.len] + basis[s.offset + s.len..];
    } else {
      NoBlocks(basis);
    }
  }

  lemma NoBlocks(basis: seq<byte>)
    ensures BlocksOf(basis, []) == []
  {
  }

  // Matching.

  /** The signature fits at `pos` and both its sums are the window's. */
  predicate Match(digest: Strong, s: Signature, target: seq<byte>, pos: nat) {
    && pos + s.len <= |target|
    && s.weak == RollSum.Weak(target[pos..pos + s.len])
    && s.strong == digest(target[pos..pos + s.len])
  }

  /** Among the first `k`: a match, no match longer, and none as long before it. */
  predicate IsBest(digest: Strong, sigs: seq<Signature>, target: seq<byte>, pos: nat, k: nat, i: nat) {
    && i < k <= |sigs| && Match(digest, sigs[i], target, pos)
    && forall j :: 0 <= j < k && Match(digest, sigs[j], target, pos) ==>
                     sigs[j].len < sigs[i].len || (sigs[j].len == sigs[i].len && i <= j)
  }

  predicate NoMatch(digest: Strong, sigs: seq<Signature>, target: seq<byte>, pos: nat, k: nat) {
    k <= |sigs| && forall j :: 0 <= j < k ==> !Match(digest, sigs[j], target, pos)
  }

  /** Searching the signatures one after another. */
  function LinearSearch(digest: Strong, sigs: seq<Signature>, target: seq<byte>, pos: nat, k: nat): (r: Option<nat>)
    requires k <= |sigs|
    ensures r.Some? ==> IsBest(digest, sigs, target, pos, k, r.value)
    ensures r.None? ==> NoMatch(digest, sigs, target, pos, k)
  {
    if k == 0 then None
    else
      var best := LinearSearch(digest, sigs, target, pos, k - 1);
      if Match(digest, sigs[k - 1], target, pos)
         && (best.None? || sigs[k - 1].len > sigs[best.value].len) then Some(k - 1)
      else best
  }

  lemma BestIsUnique(digest: Strong, sigs: seq<Signature>, target: seq<byte>, pos: nat, k: nat, i: nat, j: nat)
    requires IsBest(digest, sigs, target, pos, k, i) && IsBest(digest, sigs, target, pos, k, j)
    ensures i == j
  {
    hide Match;
  }

  function Flush(literal: seq<byte>): seq<Token> {
    if literal == [] then [] else [Literal(literal)]
  }

  predicate Positive(sigs: seq<Signature>) {
    forall s :: s in sigs ==> s.len > 0
  }

  /** The tokens for the rest of the target, with literal bytes held back. */
  function TokensFrom(digest: Strong, sigs: seq<Signature>, target: seq<byte>, pos: nat, literal: seq<byte>): seq<Token>
    requires Positive(sigs)
    decreases |target| - pos
  {
    if pos >= |target| then Flush(literal)
    else
      match LinearSearch(digest, sigs, target, pos, |sigs|)
      case Some(i) =>
        Flush(literal) + [Copy(sigs[i].offset, sigs[i].len)] + TokensFrom(digest, sigs, target, pos + sigs[i].len, [])
      case None => TokensFrom(digest, sigs, target, pos + 1, literal + [target[pos]])
  }

  function DeltaOf(digest: Strong, sigs: seq<Signature>, target: seq<byte>): seq<Token>
    requires Positive(sigs)
  {
    if target == [] then []
    else if sigs == [] then [Literal(target)]
    else TokensFrom(digest, sigs, target, 0, [])
  }

  function Apply(basis: seq<byte>, tokens: seq<Token>): Result<seq<byte>> {
    if tokens == [] then Ok([])
    else
      match tokens[0]
      case Literal(b) =>
        var rest :- Apply(basis, tokens[1..]);
        Ok(b + rest)
      case Copy(offset, len) =>
        if offset + len > |basis| then Err(InvalidData)
        else
          var rest :- Apply(basis, tokens[1..]);
          Ok(basis[offset..offset + len] + rest)
  }

  /** The bytes a signature speaks of. */
  function Block(basis: seq<byte>, s: Signature): seq<byte>
    requires s.offset + s.len <= |basis|
  {
    basis[s.offset..s.offset + s.len]
  }

  predicate AllFit(basis: seq<byte>, sigs: seq<Signature>) {
    forall s :: s in sigs ==> s.offset + s.len <= |basis|
  }

  /** Wherever the walk over the target stops at a match, the signed block is the window. */
  predicate Honest(digest: Strong, basis: seq<byte>, sigs: seq<Signature>, target: seq<byte>, pos: nat)
    requires Positive(sigs) && AllFit(basis, sigs)
    decreases |target| - pos
  {
    pos >= |target| ||
    match LinearSearch(digest, sigs, target, pos, |sigs|)
    case None => Honest(digest, basis, sigs, target, pos + 1)
    case Some(i) =>
      && Block(basis, sigs[i]) == target[pos..pos + sigs[i].len]
      && Honest(digest, basis, sigs, target, pos + sigs[i].len)
  }

  /** No signed block and window of its length differ while sharing both sums. */
  predicate NoClash(digest: Strong, basis: seq<byte>, sigs: seq<Signature>, target: seq<byte>)
    requires AllFit(basis, sigs)
  {
    forall i, pos :: 0 <= i < |sigs| && 0 <= pos <= |target| && Match(digest, sigs[i], target, pos) ==>
                       Block(basis, sigs[i]) == target[pos..pos + sigs[i].len]
  }

  /** Blocks of one length, `n` at most, that agree in both sums are the same block. */
  ghost predicate CollisionFree(digest: Strong, n: nat) {
    forall x, y :: |x| == |y| <= n && RollSum.Weak(x) == RollSum.Weak(y) && digest(x) == digest(y) ==> x == y
  }

  ghost predicate Restores(digest: Strong, basis: seq<byte>, n: nat, target: seq<byte>)
    requires n > 0
  {
    Positive(SignaturesFrom(digest, basis, n, 0))
      && Apply(basis, DeltaOf(digest, SignaturesFrom(digest, basis, n, 0), target)) == Ok(target)
  }

  lemma {:induction false} ApplyAfterLiteral(basis: seq<byte>, literal: seq<byte>, tokens: seq<Token>)
    ensures Apply(basis, Flush(literal) + tokens)
            == match Apply(basis, tokens) case Ok(b) => Ok(literal + b) case Err(e) => Err(e)
  {
    if literal == [] {
      assert Flush(literal) + tokens == tokens;
      if Apply(basis, tokens).Ok? {
        assert [] + Apply(basis, tokens).value == Apply(basis, tokens).value;
      }
    } else {
      assert (Flush(literal) + tokens)[1..] == tokens;
    }
  }

  /** The tokens for the rest of the target give as many bytes, and the right ones exactly on an honest walk. */
  lemma {:induction false} TokensGive(digest: Strong, basis: seq<byte>, sigs: seq<Signature>, target: seq<byte>,
                                      pos: nat, literal: seq<byte>)
    requires Positive(sigs) && AllFit(basis, sigs) && pos <= |target|
    ensures var r := Apply(basis, TokensFrom(digest, sigs, target, pos, literal));
            && r.Ok? && |r.value| == |literal| + |target| - pos
            && (r.value == literal + target[pos..] <==> Honest(digest, basis, sigs, target, pos))
    decreases |target| - pos
  {
    hide RollSum.Weak, Match, Apply, Flush, Positive, AllFit;
    ApplyNothing(basis);
    if pos >= |target| {
      ApplyAfterLiteral(basis, literal, []);
      assert Flush(literal) + [] == Flush(literal);
      assert target[pos..] == [];
    } else {
      var best := LinearSearch(digest, sigs, target, pos, |sigs|);
      if best.Some? {
        var s := sigs[best.value];
        SignatureFits(basis, sigs, s);
        MatchFits(digest, s, target, pos);
        TokensGive(digest, basis, sigs, target, pos + s.len, []);
        CopyGives(basis, s, target, pos, literal, TokensFrom(digest, sigs, target, pos + s.len, []));
      } else {
        TokensGive(digest, basis, sigs, target, pos + 1, literal + [target[pos]]);
        assert literal + target[pos..] == literal + [target[pos]] + target[pos + 1..];
      }
    }
  }

  lemma SignatureFits(basis: seq<byte>, sigs: seq<Signature>, s: Signature)
    requires Positive(sigs) && AllFit(basis, sigs) && s in sigs
    ensures s.len > 0 && s.offset + s.len <= |basis|
  {
  }

  lemma ApplyNothing(basis: seq<byte>)
    ensures Apply(basis, []) == Ok([])
  {
  }

  // One copy token, after the literal held back.
  lemma CopyGives(basis: seq<byte>, s: Signature, target: seq<byte>, pos: nat, literal: seq<byte>, rest: seq<Token>)
    requires s.offset + s.len <= |basis| && pos + s.len <= |target|
    requires Apply(basis, rest).Ok? && |Apply(basis, rest).value| == |target| - pos - s.len
    ensures var r := Apply(basis, Flush(literal) + [Copy(s.offset, s.len)] + rest);
            && r.Ok? && |r.value| == |literal| + |target| - pos
            && (r.value == literal + target[pos..] <==>
                Block(basis, s) == target[pos..pos + s.len] && Apply(basis, rest).value == [] + target[pos + s.len..])
  {
    hide Flush, Apply;
    var copy: seq<Token> := [Copy(s.offset, s.len)];
    var got, more := Block(basis, s), Apply(basis, rest).value;
    ApplyCopy(basis, s.offset, s.len, rest);
    Seqs.Regroup(Flush(literal), copy, rest);
    ApplyAfterLiteral(basis, literal, copy + rest);
    Halves(target, pos, s.len);
    SameParts(literal, got, more, target[pos..pos + s.len], target[pos + s.len..]);
  }

  lemma Halves(target: seq<byte>, pos: nat, len: nat)
    requires pos + len <= |target|
    ensures target[pos..] == target[pos..pos + len] + target[pos + len..]
    ensures [] + target[pos + len..] == target[pos + len..]
  {
  }

  lemma SameParts(a: seq<byte>, b: seq<byte>, c: seq<byte>, x: seq<byte>, y: seq<byte>)
    requires |b| == |x|
    ensures a + (b + c) == a + (x + y) <==> b == x && c == y
  {
    if a + (b + c) == a + (x + y) {
      assert (a + (b + c))[|a|..] == b + c && (a + (x + y))[|a|..] == x + y;
      assert (b + c)[..|b|] == b && (x + y)[..|b|] == x;
      assert (b + c)[|b|..] == c && (x + y)[|b|..] == y;
    }
  }

  lemma ApplyCopy(basis: seq<byte>, offset: nat, len: nat, rest: seq<Token>)
    requires offset + len <= |basis| && Apply(basis, rest).Ok?
    ensures Apply(basis, [Copy(offset, len)] + rest) == Ok(basis[offset..offset + len] + Apply(basis, rest).value)
  {
    assert ([Copy(offset, len)] + rest)[1..] == rest;
  }

  /** The signatures of a basis fit it, whatever the checksums. */
  lemma SignaturesFit(digest: Strong, basis: seq<byte>, n: nat)
    requires n > 0
    ensures Positive(SignaturesFrom(digest, basis, n, 0)) && AllFit(basis, SignaturesFrom(digest, basis, n, 0))
  {
    hide RollSum.Weak;
    SignaturesSpeak(digest, basis, n, 0);
  }

  /**
   * One call, any checksums: the delta always applies and gives as many bytes as the target has, and it gives the
   * target exactly when every block the walk stops at is the window it stands for.
   */
  lemma RestoresExactly(digest: Strong, basis: seq<byte>, n: nat, target: seq<byte>)
    requires n > 0
    ensures var sigs := SignaturesFrom(digest, basis, n, 0);
            && Positive(sigs) && AllFit(basis, sigs)
            && Apply(basis, DeltaOf(digest, sigs, target)).Ok?
            && |Apply(basis, DeltaOf(digest, sigs, target)).value| == |target|
            && (Restores(digest, basis, n, target) <==> Honest(digest, basis, sigs, target, 0))
  {
    hide RollSum.Weak, SignaturesFrom, Honest, AllFit, Positive, Match;
    SignaturesFit(digest, basis, n);
    var sigs := SignaturesFrom(digest, basis, n, 0);
    TokensGive(digest, basis, sigs, target, 0, []);
    assert [] + target[0..] == target;
    DeltaIsTokens(digest, sigs, target);
  }

  // Without a signature the walk holds back the whole target.
  lemma DeltaIsTokens(digest: Strong, sigs: seq<Signature>, target: seq<byte>)
    requires Positive(sigs)
    ensures DeltaOf(digest, sigs, target) == TokensFrom(digest, sigs, target, 0, [])
  {
    if sigs == [] {
      NoSignatures(digest, target, 0, []);
      assert [] + target[0..] == target;
    }
  }

  lemma {:induction false} NoSignatures(digest: Strong, target: seq<byte>, pos: nat, literal: seq<byte>)
    requires pos <= |target|
    ensures TokensFrom(digest, [], target, pos, literal) == Flush(literal + target[pos..])
    decreases |target| - pos
  {
    if pos < |target| {
      NoSignatures(digest, target, pos + 1, literal + [target[pos]]);
      assert literal + [target[pos]] + target[pos + 1..] == literal + target[pos..];
    } else {
      assert literal + target[pos..] == literal;
    }
  }

  lemma {:induction false} NoClashIsHonest(digest: Strong, basis: seq<byte>, sigs: seq<Signature>, target: seq<byte>,
                                           pos: nat)
    requires Positive(sigs) && AllFit(basis, sigs) && NoClash(digest, basis, sigs, target)
    ensures Honest(digest, basis, sigs, target, pos)
    decreases |target| - pos
  {
    hide RollSum.Weak, Match;
    if pos < |target| {
      var best := LinearSearch(digest, sigs, target, pos, |sigs|);
      NoClashIsHonest(digest, basis, sigs, target, if best.Some? then pos + sigs[best.value].len else pos + 1);
    }
  }

  /** A check on one basis and one target that is enough. */
  lemma DeltaRestores(digest: Strong, basis: seq<byte>, n: nat, target: seq<byte>)
    requires n > 0
    ensures var sigs := SignaturesFrom(digest, basis, n, 0);
            AllFit(basis, sigs) && (NoClash(digest, basis, sigs, target) ==> Restores(digest, basis, n, target))
  {
    hide SignaturesFrom, Honest, NoClash, Restores, AllFit, Positive;
    RestoresExactly(digest, basis, n, target);
    var sigs := SignaturesFrom(digest, basis, n, 0);
    if NoClash(digest, basis, sigs, target) {
      NoClashIsHonest(digest, basis, sigs, target, 0);
    }
  }

  // No signed block is longer than the block size.
  lemma {:induction false} SignaturesShort(digest: Strong, basis: seq<byte>, n: nat, i: nat)
    requires n > 0
    ensures forall s :: s in SignaturesFrom(digest, basis, n, i) ==> s.len <= n
    decreases |basis| - i * n
  {
    hide RollSum.Weak;
    if i * n < |basis| {
      assert (i + 1) * n == i * n + n;
      SignaturesShort(digest, basis, n, i + 1);
    }
  }

  lemma FreeOfClash(digest: Strong, basis: seq<byte>, n: nat, target: seq<byte>)
    requires n > 0 && CollisionFree(digest, n)
    ensures AllFit(basis, SignaturesFrom(digest, basis, n, 0))
            && NoClash(digest, basis, SignaturesFrom(digest, basis, n, 0), target)
  {
    hide RollSum.Weak, SignaturesFrom, CollisionFree;
    SignaturesSpeak(digest, basis, n, 0);
    SignaturesShort(digest, basis, n, 0);
    var sigs := SignaturesFrom(digest, basis, n, 0);
    forall i, pos | 0 <= i < |sigs| && 0 <= pos <= |target| && Match(digest, sigs[i], target, pos)
      ensures sigs[i] in sigs && Block(basis, sigs[i]) == target[pos..pos + sigs[i].len]
    {
      assert sigs[i] in sigs;
      SameBlock(digest, n, Block(basis, sigs[i]), target[pos..pos + sigs[i].len]);
    }
  }

  lemma SameBlock(digest: Strong, n: nat, x: seq<byte>, y: seq<byte>)
    requires CollisionFree(digest, n)
    requires |x| == |y| <= n && RollSum.Weak(x) == RollSum.Weak(y) && digest(x) == digest(y)
    ensures x == y
  {
  }

  // Two blocks that collide are one basis and one target that go wrong.
  lemma CollisionLoses(digest: Strong, n: nat, x: seq<byte>, y: seq<byte>)
    requires |x| == |y| <= n && RollSum.Weak(x) == RollSum.Weak(y) && digest(x) == digest(y) && x != y
    ensures !Restores(digest, x, n, y)
  {
    hide RollSum.Weak, Apply;
    assert 1 * n >= |x|;
    assert SignaturesFrom(digest, x, n, 1) == [];
    var s := Sign(digest, x, n, 0);
    assert x[0..|x|] == x && y[0..|x|] == y;
    var sigs := SignaturesFrom(digest, x, n, 0);
    assert sigs == [s];
    assert Match(digest, s, y, 0);
    assert LinearSearch(digest, sigs, y, 0, 1) == Some(0);
    assert Block(x, s) == x;
    RestoresExactly(digest, x, n, y);
  }

  /**
   * With one block size, the delta algorithm is lossless for every basis and target exactly when no two different
   * blocks of one length, up to that size, share both checksums.
   */
  lemma LosslessExactly(digest: Strong, n: nat)
    requires n > 0
    ensures CollisionFree(digest, n) <==> forall basis, target :: Restores(digest, basis, n, target)
  {
    hide RollSum.Weak, Restores;
    if CollisionFree(digest, n) {
      forall basis, target ensures Restores(digest, basis, n, target) {
        FreeOfClash(digest, basis, n, target);
        DeltaRestores(digest, basis, n, target);
      }
    } else {
      var x, y :| |x| == |y| <= n && RollSum.Weak(x) == RollSum.Weak(y) && digest(x) == digest(y) && x != y;
      CollisionLoses(digest, n, x, y);
    }
  }

  // The shape of a delta.

  function Len(t: Token): nat {
    match t
    case Literal(b) => |b|
    case Copy(_, len) => len
  }

  function TotalLen(ts: seq<Token>): nat {
    if ts == [] then 0 else Len(ts[0]) + TotalLen(ts[1..])
  }

  /** No literal is empty, and no two literals touch. */
  predicate WellShaped(ts: seq<Token>) {
    && (forall i :: 0 <= i < |ts| && ts[i].Literal? ==> ts[i].bytes != [])
    && (forall i :: 0 < i < |ts| ==> ts[i - 1].Copy? || ts[i].Copy?)
  }

  lemma {:induction false} TokensShape(digest: Strong, sigs: seq<Signature>, target: seq<byte>, pos: nat,
                                       literal: seq<byte>)
    requires Positive(sigs) && pos <= |target|
    ensures var ts := TokensFrom(digest, sigs, target, pos, literal);
            WellShaped(ts) && TotalLen(ts) == |literal| + |target| - pos
    decreases |target| - pos
  {
    hide Match, WellShaped, TotalLen;
    if pos >= |target| {
      FlushShape(literal, []);
      NothingShape();
      assert Flush(literal) + [] == Flush(literal);
    } else {
      var best := LinearSearch(digest, sigs, target, pos, |sigs|);
      if best.Some? {
        var s := sigs[best.value];
        MatchFits(digest, s, target, pos);
        TokensShape(digest, sigs, target, pos + s.len, []);
        var rest := TokensFrom(digest, sigs, target, pos + s.len, []);
        var tail := [Copy(s.offset, s.len)] + rest;
        CopyShape(s.offset, s.len, rest);
        FlushShape(literal, tail);
        assert Flush(literal) + [Copy(s.offset, s.len)] + rest == Flush(literal) + tail;
      } else {
        TokensShape(digest, sigs, target, pos + 1, literal + [target[pos]]);
      }
    }
  }

  lemma NothingShape()
    ensures WellShaped([]) && TotalLen([]) == 0
  {
  }

  lemma CopyShape(offset: nat, len: nat, rest: seq<Token>)
    requires WellShaped(rest)
    ensures var ts := [Copy(offset, len)] + rest;
            WellShaped(ts) && TotalLen(ts) == len + TotalLen(rest) && ts[0].Copy?
  {
    assert ([Copy(offset, len)] + rest)[1..] == rest;
  }

  lemma FlushShape(literal: seq<byte>, tail: seq<Token>)
    requires WellShaped(tail) && (tail == [] || tail[0].Copy?)
    ensures WellShaped(Flush(literal) + tail) && TotalLen(Flush(literal) + tail) == |literal| + TotalLen(tail)
  {
    if literal == [] {
      assert Flush(literal) + tail == tail;
    } else {
      assert (Flush(literal) + tail)[1..] == tail;
    }
  }

  lemma MatchFits(digest: Strong, s: Signature, target: seq<byte>, pos: nat)
    requires Match(digest, s, target, pos)
    ensures pos + s.len <= |target|
  {
  }

  /** Token lengths add up to the target, whatever the checksums; literals are not empty and do not touch. */
  lemma DeltaShape(digest: Strong, sigs: seq<Signature>, target: seq<byte>)
    requires Positive(sigs)
    ensures WellShaped(DeltaOf(digest, sigs, target)) && TotalLen(DeltaOf(digest, sigs, target)) == |target|
  {
    if target != [] && sigs == [] {
      assert [Literal(target)][1..] == [];
    } else if target != [] {
      TokensShape(digest, sigs, target, 0, []);
    }
  }
}
