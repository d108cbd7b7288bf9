/** The holes of a sparse file: what its allocated ranges leave free. */
module Sparse {
  import opened Wire

  datatype Range = Range(offset: u64, len: u64)

  const U64_MAX: nat := 0xffff_ffff_ffff_ffff

  function End(r: Range): nat {
    r.offset + r.len
  }

  /** Ranges with something in them, within the file, in order and apart. */
  ghost predicate Sound(fileLen: u64, ranges: seq<Range>) {
    && (forall i :: 0 <= i < |ranges| ==> ranges[i].len > 0 && End(ranges[i]) <= fileLen)
    && (forall i, j :: 0 <= i < j < |ranges| ==> End(ranges[i]) <= ranges[j].offset)
  }

  /** Validation looks at neighbours only, and accepts exactly the sound lists. */
  method ValidateSparseRanges(fileLen: u64, ranges: seq<Range>) returns (r: Result<()>)
    ensures r == if Sound(fileLen, ranges) then Ok(()) else Err(InvalidInput)
  {
    var previousEnd: nat := 0;
    var i := 0;
    while i < |ranges|
      invariant 0 <= i <= |ranges| && Sound(fileLen, ranges[..i])
      invariant previousEnd == if i == 0 then 0 else End(ranges[i - 1])
    {
      var range := ranges[i];
      assert forall k :: 0 <= k < i ==> ranges[..i][k] == ranges[k];
      if range.len == 0 {
        return Err(InvalidInput);
      }
      var end := range.offset as int + range.len as int;
      if end > U64_MAX {
        return Err(InvalidInput);
      }
      if end > fileLen || range.offset < previousEnd {
        return Err(InvalidInput);
      }
      forall k | 0 <= k < i ensures End(ranges[k]) <= range.offset {
        if k < i - 1 {
          assert End(ranges[..i][k]) <= ranges[..i][i - 1].offset;
        }
      }
      assert forall k :: 0 <= k <= i ==> ranges[..i + 1][k] == ranges[k];
      previousEnd := end;
      i := i + 1;
    }
    assert ranges[..i] == ranges;
    r := Ok(());
  }

  predicate Inside(x: nat, r: Range) {
    r.offset <= x < End(r)
  }

  ghost predicate Covered(x: nat, ranges: seq<Range>) {
    exists i :: 0 <= i < |ranges| && Inside(x, ranges[i])
  }

  /** In order and apart up to `limit`, none of them empty. */
  ghost predicate Tidy(holes: seq<Range>, limit: nat) {
    && (forall i :: 0 <= i < |holes| ==> holes[i].len > 0 && End(holes[i]) <= limit)
    && (forall i, j :: 0 <= i < j < |holes| ==> End(holes[i]) <= holes[j].offset)
  }

  /** Holes and ranges together make up [0, limit), and nothing is in both. */
  ghost predicate Partition(ranges: seq<Range>, holes: seq<Range>, limit: nat) {
    forall x: nat ::
      (Covered(x, ranges) || Covered(x, holes) <==> x < limit) && !(Covered(x, ranges) && Covered(x, holes))
  }

  lemma SoundMeansFirst(fileLen: u64, ranges: seq<Range>, i: nat)
    requires Sound(fileLen, ranges) && i < |ranges|
    ensures i > 0 ==> End(ranges[i - 1]) <= ranges[i].offset
    ensures ranges[i].len > 0 && End(ranges[i]) <= fileLen
  {
  }

  lemma AddBoth(ranges: seq<Range>, holes: seq<Range>, limit: nat, holes': seq<Range>, range: Range)
    requires Partition(ranges, holes, limit) && range.offset >= limit && range.len > 0
    requires if limit < range.offset then holes' == holes + [Range(limit, range.offset - limit)] else holes' == holes
    ensures Partition(ranges + [range], holes', End(range))
  {
    forall x: nat
      ensures Covered(x, ranges + [range]) || Covered(x, holes') <==> x < End(range)
      ensures !(Covered(x, ranges + [range]) && Covered(x, holes'))
    {
      CoveredMore(x, ranges, range);
      if limit < range.offset {
        CoveredMore(x, holes, Range(limit, range.offset - limit));
      }
    }
  }

  lemma CoveredMore(x: nat, ranges: seq<Range>, range: Range)
    ensures Covered(x, ranges + [range]) <==> Covered(x, ranges) || Inside(x, range)
  {
    var more := ranges + [range];
    if Covered(x, ranges) {
      var i :| 0 <= i < |ranges| && Inside(x, ranges[i]);
      assert Inside(x, more[i]);
    }
    if Inside(x, range) {
      assert Inside(x, more[|ranges|]);
    }
    if Covered(x, more) {
      var i :| 0 <= i < |more| && Inside(x, more[i]);
      assert i < |ranges| ==> more[i] == ranges[i];
    }
  }

  lemma NoneCovered()
    ensures Partition([], [], 0)
  {
  }

  /** For a sound list: holes that are tidy and exactly fill the gaps, with no arithmetic out of range. */
  method SparseHoles(fileLen: u64, ranges: seq<Range>) returns (holes: seq<Range>)
    requires Sound(fileLen, ranges)
    ensures Tidy(holes, fileLen) && Partition(ranges, holes, fileLen)
  {
    holes := [];
    var cursor: u64 := 0;
    var i := 0;
    NoneCovered();
    while i < |ranges|
      invariant 0 <= i <= |ranges| && cursor <= fileLen && cursor == (if i == 0 then 0 else End(ranges[i - 1]))
      invariant Tidy(holes, cursor) && Partition(ranges[..i], holes, cursor)
    {
      hide Partition;
      var range := ranges[i];
      SoundMeansFirst(fileLen, ranges, i);
      assert ranges[..i + 1] == ranges[..i] + [range];
      ghost var before := holes;
      if cursor < range.offset {
        holes := holes + [Range(cursor, range.offset - cursor)];
      }
      AddBoth(ranges[..i], before, cursor, holes, range);
      cursor := range.offset + range.len;
      i := i + 1;
    }
    assert ranges[..i] == ranges;
    ghost var before := holes;
    if cursor < fileLen {
      holes := holes + [Range(cursor, fileLen - cursor)];
    }
    FillEnd(ranges, before, cursor, holes, fileLen);
  }

  lemma FillEnd(ranges: seq<Range>, holes: seq<Range>, limit: nat, holes': seq<Range>, fileLen: u64)
    requires Partition(ranges, holes, limit) && limit <= fileLen
    requires if limit < fileLen then holes' == holes + [Range(limit, fileLen - limit)] else holes' == holes
    ensures Partition(ranges, holes', fileLen)
  {
    forall x: nat
      ensures Covered(x, ranges) || Covered(x, holes') <==> x < fileLen
      ensures !(Covered(x, ranges) && Covered(x, holes'))
    {
      if limit < fileLen {
        CoveredMore(x, holes, Range(limit, fileLen - limit));
      }
    }
  }
}
