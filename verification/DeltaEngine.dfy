/** The delta algorithm as it runs: chunking, the signature index, the matching loop and application. */
module DeltaEngine {
  import opened Seqs
  import opened Wire
  import opened RollSum
  import opened Delta

  method GenerateSignatures(basis: seq<byte>, blockSize: nat, digest: Strong) returns (r: Result<seq<Signature>>)
    ensures r == Signatures(digest, basis, blockSize)
  {
    if blockSize == 0 {
      return Err(InvalidInput);
    }
    hide Sign, SignaturesFrom;
    var signatures := [];
    var index := 0;
    ghost var whole := SignaturesFrom(digest, basis, blockSize, 0);
    assert [] + whole == whole;
    while index * blockSize < |basis|
      invariant whole == signatures + SignaturesFrom(digest, basis, blockSize, index)
      decreases |basis| - index * blockSize
    {
      SignaturesTurn(digest, basis, blockSize, index);
      var signature := SignBlock(basis, blockSize, index, digest);
      Regroup(signatures, [signature], SignaturesFrom(digest, basis, blockSize, index + 1));
      signatures := signatures + [signature];
      index := index + 1;
    }
    SignaturesEnd(digest, basis, blockSize, index);
    assert signatures + [] == signatures;
    r := Ok(signatures);
  }

  lemma SignaturesTurn(digest: Strong, basis: seq<byte>, n: nat, i: nat)
    requires n > 0 && i * n < |basis|
    ensures (i + 1) * n == i * n + n
    ensures SignaturesFrom(digest, basis, n, i) == [Sign(digest, basis, n, i)] + SignaturesFrom(digest, basis, n, i + 1)
  {
    hide Sign;
  }

  lemma SignaturesEnd(digest: Strong, basis: seq<byte>, n: nat, i: nat)
    requires n > 0 && i * n >= |basis|
    ensures SignaturesFrom(digest, basis, n, i) == []
  {
  }

  method SignBlock(basis: seq<byte>, blockSize: nat, index: nat, digest: Strong) returns (s: Signature)
    requires blockSize > 0 && index * blockSize < |basis|
    ensures s == Sign(digest, basis, blockSize, index)
  {
    var offset := index * blockSize;
    var end := if |basis| - offset < blockSize then |basis| else offset + blockSize;
    var block := basis[offset..end];
    var weak := RollingChecksumOf(block);
    s := Signature(index, offset, |block|, weak, digest(block));
  }

  type Key = (nat, nat)

  function KeyOf(s: Signature): Key {
    (s.len, s.weak)
  }

  /** The signatures among the first `k` with this length and weak sum, in order. */
  function IndexesOf(sigs: seq<Signature>, key: Key, k: nat): (ix: seq<nat>)
    requires k <= |sigs|
    ensures forall i :: 0 <= i < |ix| ==> ix[i] < k && KeyOf(sigs[ix[i]]) == key
    ensures forall i, j :: 0 <= i < j < |ix| ==> ix[i] < ix[j]
    ensures forall n :: 0 <= n < k && KeyOf(sigs[n]) == key ==> n in ix
  {
    if k == 0 then []
    else if KeyOf(sigs[k - 1]) == key then IndexesOf(sigs, key, k - 1) + [k - 1]
    else IndexesOf(sigs, key, k - 1)
  }

  ghost predicate Indexed(table: map<Key, seq<nat>>, sigs: seq<Signature>, k: nat)
    requires k <= |sigs|
  {
    forall key :: (if key in table then table[key] else []) == IndexesOf(sigs, key, k)
  }

  function Lengths(sigs: seq<Signature>): set<nat> {
    set s | s in sigs :: s.len
  }

  predicate Descending(ls: seq<nat>) {
    forall i, j :: 0 <= i < j < |ls| ==> ls[i] > ls[j]
  }

  predicate Largest(s: set<nat>, m: nat) {
    m in s && forall x :: x in s ==> x <= m
  }

  lemma {:induction false} LargestExists(s: set<nat>)
    requires s != {}
    ensures exists m :: Largest(s, m)
    decreases |s|
  {
    var x :| x in s;
    var rest := s - {x};
    if rest == {} {
      assert s == {x};
      assert Largest(s, x);
    } else {
      LargestExists(rest);
      var m :| Largest(rest, m);
      assert s == rest + {x};
      assert Largest(s, if x > m then x else m);
    }
  }

  method SortDescending(s: set<nat>) returns (sorted: seq<nat>)
    ensures Descending(sorted) && forall x :: x in sorted <==> x in s
  {
    sorted := [];
    var rest := s;
    while rest != {}
      invariant rest <= s && Descending(sorted) && (forall x :: x in sorted <==> x in s && x !in rest)
      invariant forall x, y :: x in sorted && y in rest ==> x > y
      decreases rest
    {
      LargestExists(rest);
      var m :| Largest(rest, m);
      assert forall i :: 0 <= i < |sorted| ==> sorted[i] in sorted;
      sorted := sorted + [m];
      rest := rest - {m};
    }
  }

  lemma NothingIndexed(sigs: seq<Signature>)
    ensures Indexed(map[], sigs, 0) && Lengths(sigs[..0]) == {}
  {
    assert sigs[..0] == [];
  }

  lemma IndexNext(table: map<Key, seq<nat>>, sigs: seq<Signature>, i: nat)
    requires i < |sigs| && Indexed(table, sigs, i)
    ensures var key := KeyOf(sigs[i]);
            Indexed(table[key := (if key in table then table[key] else []) + [i]], sigs, i + 1)
    ensures Lengths(sigs[..i + 1]) == Lengths(sigs[..i]) + {sigs[i].len}
  {
    hide KeyOf;
    assert sigs[..i + 1] == sigs[..i] + [sigs[i]];
    assert Lengths(sigs[..i + 1]) == Lengths(sigs[..i]) + {sigs[i].len};
  }

  class SignatureIndex {
    const signatures: seq<Signature>
    const lengthsDesc: seq<nat>
    const byLenAndWeak: map<Key, seq<nat>>

    ghost predicate Valid() {
      && Indexed(byLenAndWeak, signatures, |signatures|)
      && Descending(lengthsDesc) && forall l :: l in lengthsDesc <==> l in Lengths(signatures)
    }

    constructor (sigs: seq<Signature>)
      ensures Valid() && signatures == sigs
    {
      hide IndexesOf, KeyOf, Indexed, Descending, Lengths;
      var table: map<Key, seq<nat>> := map[];
      var lengths: set<nat> := {};
      var i := 0;
      NothingIndexed(sigs);
      while i < |sigs|
        invariant 0 <= i <= |sigs| && Indexed(table, sigs, i) && lengths == Lengths(sigs[..i])
      {
        var key := KeyOf(sigs[i]);
        IndexNext(table, sigs, i);
        lengths := lengths + {sigs[i].len};
        table := table[key := (if key in table then table[key] else []) + [i]];
        i := i + 1;
      }
      assert sigs[..i] == sigs;
      var desc := SortDescending(lengths);
      signatures, lengthsDesc, byLenAndWeak := sigs, desc, table;
    }

    lemma Lookup(key: Key)
      requires Valid()
      ensures (if key in byLenAndWeak then byLenAndWeak[key] else []) == IndexesOf(signatures, key, |signatures|)
    {
      hide IndexesOf, Descending, Lengths;
    }

    /** The index finds what searching one signature after another finds. */
    method FindMatch(target: seq<byte>, pos: nat, digest: Strong) returns (r: Option<Signature>)
      requires Valid() && pos <= |target|
      ensures match LinearSearch(digest, signatures, target, pos, |signatures|)
              case Some(i) => r == Some(signatures[i])
              case None => r == None
    {
      hide Weak, LinearSearch, IndexesOf;
      var k := 0;
      while k < |lengthsDesc|
        invariant 0 <= k <= |lengthsDesc|
        invariant forall j :: 0 <= j < |signatures| && signatures[j].len in lengthsDesc[..k] ==>
                    !Match(digest, signatures[j], target, pos)
      {
        var len := lengthsDesc[k];
        assert lengthsDesc[..k + 1] == lengthsDesc[..k] + [len];
        if |target| - pos >= len {
          var found := FindOfLength(target, pos, digest, len);
          if found.Some? {
            var i := found.value;
            forall j | 0 <= j < |signatures| && Match(digest, signatures[j], target, pos)
              ensures signatures[j].len < signatures[i].len || (signatures[j].len == signatures[i].len && i <= j)
            {
              LengthListed(j);
              if signatures[j].len !in lengthsDesc[..k] {
                var n :| 0 <= n < |lengthsDesc| && lengthsDesc[n] == signatures[j].len;
                assert n >= k;
              }
            }
            assert IsBest(digest, signatures, target, pos, |signatures|, i);
            SearchFinds(digest, signatures, target, pos, i);
            return Some(signatures[i]);
          }
        }
        k := k + 1;
      }
      forall j | 0 <= j < |signatures| ensures !Match(digest, signatures[j], target, pos) {
        LengthListed(j);
        assert lengthsDesc[..k] == lengthsDesc;
      }
      SearchMisses(digest, signatures, target, pos);
      r := None;
    }

    lemma LengthListed(j: nat)
      requires Valid() && j < |signatures|
      ensures signatures[j].len in lengthsDesc
    {
      assert signatures[j] in signatures;
      assert signatures[j].len in Lengths(signatures);
    }

    /** The first signature of this length that matches. */
    method FindOfLength(target: seq<byte>, pos: nat, digest: Strong, len: nat) returns (r: Option<nat>)
      requires Valid() && pos + len <= |target|
      ensures r.Some? ==>
                r.value < |signatures| && signatures[r.value].len == len
                  && Match(digest, signatures[r.value], target, pos)
      ensures r.Some? ==> forall j :: 0 <= j < r.value && signatures[j].len == len ==>
                !Match(digest, signatures[j], target, pos)
      ensures r.None? ==> forall j :: 0 <= j < |signatures| && signatures[j].len == len ==>
                !Match(digest, signatures[j], target, pos)
    {
      hide Weak, Match, IndexesOf, SignatureIndex.Valid, KeyOf;
      var candidate := target[pos..pos + len];
      var weak := RollingChecksumOf(candidate);
      var key: Key := (len, weak);
      Lookup(key);
      var indexes := if key in byLenAndWeak then byLenAndWeak[key] else [];
      var at := FirstWithStrong(key, indexes, digest(candidate));
      FoundIsFirst(digest, target, pos, key, at);
      r := if at.Some? then Some(indexes[at.value]) else None;
    }

    method FirstWithStrong(ghost key: Key, indexes: seq<nat>, strong: seq<byte>) returns (at: Option<nat>)
      requires indexes == IndexesOf(signatures, key, |signatures|)
      ensures FirstStrong(indexes, strong, at)
    {
      hide KeyOf;
      var i := 0;
      while i < |indexes|
        invariant 0 <= i <= |indexes|
        invariant forall n :: 0 <= n < i ==> signatures[indexes[n]].strong != strong
      {
        if signatures[indexes[i]].strong == strong {
          return Some(i);
        }
        i := i + 1;
      }
      at := None;
    }

    predicate FirstStrong(indexes: seq<nat>, strong: seq<byte>, at: Option<nat>) {
      && (forall n :: 0 <= n < |indexes| ==> indexes[n] < |signatures|)
      && match at
         case Some(i) => i < |indexes| && signatures[indexes[i]].strong == strong
                         && forall n :: 0 <= n < i ==> signatures[indexes[n]].strong != strong
         case None => forall n :: 0 <= n < |indexes| ==> signatures[indexes[n]].strong != strong
    }

    // Length and weak sum being right, the first with the right strong sum is the first match.
    lemma FoundIsFirst(digest: Strong, target: seq<byte>, pos: nat, key: Key, at: Option<nat>)
      requires pos + key.0 <= |target| && key.1 == Weak(target[pos..pos + key.0])
      requires FirstStrong(IndexesOf(signatures, key, |signatures|), digest(target[pos..pos + key.0]), at)
      ensures var indexes := IndexesOf(signatures, key, |signatures|);
              && (at.Some? ==>
                    && signatures[indexes[at.value]].len == key.0
                       && Match(digest, signatures[indexes[at.value]], target, pos)
                    && forall j :: 0 <= j < indexes[at.value] && signatures[j].len == key.0 ==>
                         !Match(digest, signatures[j], target, pos))
              && (at.None? ==> forall j :: 0 <= j < |signatures| && signatures[j].len == key.0 ==>
                  !Match(digest, signatures[j], target, pos))
    {
      hide Weak, Match, IndexesOf;
      var indexes := IndexesOf(signatures, key, |signatures|);
      forall n | 0 <= n < |indexes|
        ensures Match(digest, signatures[indexes[n]], target, pos) <==>
                  signatures[indexes[n]].strong == digest(target[pos..pos + key.0])
      {
        SameKey(digest, signatures[indexes[n]], target, pos, key.0, key.1);
      }
      KeyDecides(digest, target, pos, key);
    }

    // Once length and weak sum agree, the strong sum decides.
    lemma SameKey(digest: Strong, s: Signature, target: seq<byte>, pos: nat, len: nat, weak: nat)
      requires pos + len <= |target| && weak == Weak(target[pos..pos + len]) && KeyOf(s) == (len, weak)
      ensures Match(digest, s, target, pos) <==> s.strong == digest(target[pos..pos + len])
    {
      hide Weak;
    }

    // Only signatures under the key can match.
    lemma KeyDecides(digest: Strong, target: seq<byte>, pos: nat, key: Key)
      requires pos + key.0 <= |target| && key.1 == Weak(target[pos..pos + key.0])
      ensures forall j ::
                0 <= j < |signatures| && signatures[j].len == key.0 && Match(digest, signatures[j], target, pos) ==>
                            j in IndexesOf(signatures, key, |signatures|)
    {
      hide Weak, Match, IndexesOf;
      OtherKeys(digest, target, pos, key.0, key.1);
    }

    // A signature with another weak sum does not match.
    lemma OtherKeys(digest: Strong, target: seq<byte>, pos: nat, len: nat, weak: nat)
      requires pos + len <= |target| && weak == Weak(target[pos..pos + len])
      ensures forall j :: 0 <= j < |signatures| && signatures[j].len == len && KeyOf(signatures[j]) != (len, weak) ==>
                            !Match(digest, signatures[j], target, pos)
    {
      hide Weak;
    }
  }

  lemma SearchFinds(digest: Strong, sigs: seq<Signature>, target: seq<byte>, pos: nat, i: nat)
    requires IsBest(digest, sigs, target, pos, |sigs|, i)
    ensures LinearSearch(digest, sigs, target, pos, |sigs|) == Some(i)
  {
    hide Match;
    var r := LinearSearch(digest, sigs, target, pos, |sigs|);
    if r.Some? {
      BestIsUnique(digest, sigs, target, pos, |sigs|, i, r.value);
    }
  }

  lemma SearchMisses(digest: Strong, sigs: seq<Signature>, target: seq<byte>, pos: nat)
    requires NoMatch(digest, sigs, target, pos, |sigs|)
    ensures LinearSearch(digest, sigs, target, pos, |sigs|) == None
  {
    hide Match;
  }

  method FlushLiteral(tokens: seq<Token>, literal: seq<byte>) returns (r: seq<Token>)
    ensures r == tokens + Flush(literal)
  {
    r := tokens;
    if literal != [] {
      r := r + [Literal(literal)];
    }
  }

  /** The matching loop goes on because every signed block has some length. */
  method GenerateDelta(signatures: seq<Signature>, target: seq<byte>, digest: Strong) returns (tokens: seq<Token>)
    requires Positive(signatures)
    ensures tokens == DeltaOf(digest, signatures, target)
  {
    hide Match, LinearSearch, Flush, TokensFrom, Positive;
    if target == [] {
      return [];
    }
    if signatures == [] {
      return [Literal(target)];
    }
    var index := new SignatureIndex(signatures);
    tokens := [];
    var literal := [];
    var pos := 0;
    ghost var whole := TokensFrom(digest, signatures, target, 0, []);
    assert [] + whole == whole;
    while pos < |target|
      invariant pos <= |target| && whole == tokens + TokensFrom(digest, signatures, target, pos, literal)
      decreases |target| - pos
    {
      TokensTurn(digest, signatures, target, pos, literal, tokens);
      var found := index.FindMatch(target, pos, digest);
      if found.Some? {
        tokens := FlushLiteral(tokens, literal);
        literal := [];
        tokens := tokens + [Copy(found.value.offset, found.value.len)];
        pos := pos + found.value.len;
      } else {
        literal := literal + [target[pos]];
        pos := pos + 1;
      }
    }
    TokensEnd(digest, signatures, target, pos, literal);
    tokens := FlushLiteral(tokens, literal);
  }

  // One turn of the matching loop.
  lemma TokensTurn(digest: Strong, sigs: seq<Signature>, target: seq<byte>, pos: nat, literal: seq<byte>,
                   tokens: seq<Token>)
    requires Positive(sigs) && pos < |target|
    ensures match LinearSearch(digest, sigs, target, pos, |sigs|)
            case None => TokensFrom(digest, sigs, target, pos, literal)
              == TokensFrom(digest, sigs, target, pos + 1, literal + [target[pos]])
            case Some(i) =>
              && 0 < sigs[i].len <= |target| - pos
              && tokens + TokensFrom(digest, sigs, target, pos, literal)
                 == tokens + Flush(literal) + [Copy(sigs[i].offset, sigs[i].len)]
                   + TokensFrom(digest, sigs, target, pos + sigs[i].len, [])
  {
    hide Flush, LinearSearch;
    var best := LinearSearch(digest, sigs, target, pos, |sigs|);
    if best.Some? {
      var s := sigs[best.value];
      assert s in sigs;
      MatchFits(digest, s, target, pos);
      var rest := TokensFrom(digest, sigs, target, pos + s.len, []);
      Regroup(tokens, Flush(literal) + [Copy(s.offset, s.len)], rest);
      Regroup(tokens, Flush(literal), [Copy(s.offset, s.len)]);
    }
  }

  lemma TokensEnd(digest: Strong, sigs: seq<Signature>, target: seq<byte>, pos: nat, literal: seq<byte>)
    requires Positive(sigs) && pos >= |target|
    ensures TokensFrom(digest, sigs, target, pos, literal) == Flush(literal)
  {
  }

  method ApplyDelta(basis: seq<byte>, tokens: seq<Token>) returns (r: Result<seq<byte>>)
    ensures r == Apply(basis, tokens)
  {
    var output := [];
    var i := 0;
    assert tokens[0..] == tokens;
    ghost var whole := Apply(basis, tokens);
    if whole.Ok? {
      assert [] + whole.value == whole.value;
    }
    while i < |tokens|
      invariant 0 <= i <= |tokens|
      invariant match Apply(basis, tokens[i..])
                case Ok(rest) => whole == Ok(output + rest)
                case Err(e) => whole == Err(e)
    {
      assert tokens[i..][1..] == tokens[i + 1..];
      ghost var rest := Apply(basis, tokens[i + 1..]);
      match tokens[i] {
        case Literal(b) =>
          if rest.Ok? {
            assert output + (b + rest.value) == output + b + rest.value;
          }
          output := output + b;
        case Copy(offset, len) =>
          if offset + len > |basis| {
            return Err(InvalidData);
          }
          var b := basis[offset..offset + len];
          if rest.Ok? {
            assert output + (b + rest.value) == output + b + rest.value;
          }
          output := output + b;
      }
      i := i + 1;
    }
    assert tokens[i..] == [] && output + [] == output;
    r := Ok(output);
  }

  /**
   * Signing, matching and applying in turn, with any checksum: as many bytes as the target has, and the target
   * itself exactly on an honest walk, so always when no signed block clashes with a window.
   */
  method Transfer(basis: seq<byte>, blockSize: nat, target: seq<byte>, digest: Strong) returns (r: Result<seq<byte>>)
    ensures blockSize == 0 ==> r == Err(InvalidInput)
    ensures blockSize > 0 ==>
              var sigs := SignaturesFrom(digest, basis, blockSize, 0);
              && Positive(sigs) && AllFit(basis, sigs) && r.Ok? && |r.value| == |target|
              && (r.value == target <==> Honest(digest, basis, sigs, target, 0))
              && (NoClash(digest, basis, sigs, target) ==> r.value == target)
  {
    hide NoClash, Honest, AllFit, Positive, SignaturesFrom, DeltaOf, Apply;
    var signatures :- GenerateSignatures(basis, blockSize, digest);
    RestoresExactly(digest, basis, blockSize, target);
    DeltaRestores(digest, basis, blockSize, target);
    var tokens := GenerateDelta(signatures, target, digest);
    r := ApplyDelta(basis, tokens);
  }
}
