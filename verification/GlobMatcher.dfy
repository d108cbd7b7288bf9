/** The memoised glob matcher: every entry it remembers is right, so its answer is. */
module GlobMatcher {
  import opened Wire
  import opened GlobSpec

  method NormalizeFilterPath(path: string) returns (normalized: string)
    ensures normalized == Normalize(path)
  {
    hide Normalize, Joins, Normal;
    normalized := [];
    var previousWasSeparator := false;
    var i := 0;
    NormalEnds(path);
    assert path[0..] == path;
    while i < |path|
      invariant 0 <= i <= |path|
      invariant previousWasSeparator <==> normalized != [] && normalized[|normalized| - 1] == '/'
      invariant Normalize(path) == Joins(normalized, Normalize(path[i..]))
    {
      var ch := if path[i] == '\\' then '/' else path[i];
      NormalTurn(normalized, path, i);
      i := i + 1;
      if ch == '/' {
        if previousWasSeparator {
          continue;
        }
        previousWasSeparator := true;
      } else {
        previousWasSeparator := false;
      }
      normalized := normalized + [ch];
    }
    assert path[i..] == [];
    NormalEnds(normalized);
  }

  lemma NormalEnds(s: string)
    ensures Joins([], Normalize(s)) == Normalize(s) && Joins(s, Normalize([])) == s
  {
    assert [] + Normalize(s) == Normalize(s) && s + [] == s;
  }

  /** What is written so far, and what is to come without a separator that would double. */
  function Joins(done: string, rest: string): string {
    if done != [] && done[|done| - 1] == '/' && rest != [] && rest[0] == '/' then done + rest[1..] else done + rest
  }

  lemma NormalTurn(done: string, path: string, i: nat)
    requires i < |path|
    ensures var ch := if path[i] == '\\' then '/' else path[i];
            Joins(done, Normalize(path[i..])) ==
            if ch == '/' && done != [] && done[|done| - 1] == '/' then Joins(done, Normalize(path[i + 1..]))
            else Joins(done + [ch], Normalize(path[i + 1..]))
  {
    assert path[i..][1..] == path[i + 1..];
    var ch := if path[i] == '\\' then '/' else path[i];
    var rest := Normalize(path[i + 1..]);
    if ch == '/' && rest != [] && rest[0] == '/' {
      assert rest == ['/'] + rest[1..];
      assert done + rest == done + ['/'] + rest[1..];
    } else {
      assert done + ([ch] + rest) == done + [ch] + rest;
    }
  }

  class Memo {
    var entries: map<(nat, nat), bool>

    constructor ()
      ensures entries == map[]
    {
      entries := map[];
    }

    /** Every remembered answer is the right one. */
    ghost predicate Right(pattern: string, text: string)
      reads this
    {
      forall key :: key in entries ==>
                      key.0 <= |pattern| && key.1 <= |text| && entries[key] == GlobAt(pattern, key.0, text, key.1)
    }
  }

  method GlobMatchesAt(pattern: string, p: nat, text: string, t: nat, memo: Memo) returns (r: bool)
    requires p <= |pattern| && t <= |text| && memo.Right(pattern, text)
    modifies memo
    ensures r == GlobAt(pattern, p, text, t) && memo.Right(pattern, text)
    decreases |pattern| - p, 1
  {
    if (p, t) in memo.entries {
      return memo.entries[(p, t)];
    }
    if p == |pattern| {
      r := t == |text|;
    } else {
      match pattern[p] {
        case '*' =>
          r := MatchStar(pattern, p, text, t, memo);
        case '?' =>
          r := t < |text| && text[t] != '/';
          if r {
            r := GlobMatchesAt(pattern, p + 1, text, t + 1, memo);
          }
        case '[' =>
          r := MatchClass(pattern, p, text, t, memo);
        case '\\' =>
          r := MatchEscaped(pattern, p, text, t, memo);
        case literal =>
          r := t < |text| && text[t] == literal;
          if r {
            r := GlobMatchesAt(pattern, p + 1, text, t + 1, memo);
          }
      }
    }
    memo.entries := memo.entries[(p, t) := r];
  }

  method MatchStar(pattern: string, p: nat, text: string, t: nat, memo: Memo) returns (r: bool)
    requires p < |pattern| && pattern[p] == '*' && t <= |text| && memo.Right(pattern, text)
    modifies memo
    ensures r == GlobAt(pattern, p, text, t) && memo.Right(pattern, text)
    decreases |pattern| - p, 0
  {
    var end := p;
    while end < |pattern| && pattern[end] == '*'
      invariant p <= end <= |pattern| && StarEnd(pattern, p) == StarEnd(pattern, end)
      invariant end == p ==> pattern[end] == '*'
    {
      end := end + 1;
    }
    var recursive := end - p >= 2;
    assert text[t..t] == [];
    var first := GlobMatchesAt(pattern, end, text, t, memo);
    if first {
      assert StarSpans(recursive, text[t..t]);
      return true;
    }
    var consumePos := t;
    while consumePos < |text|
      invariant t <= consumePos <= |text| && memo.Right(pattern, text)
      invariant StarSpans(recursive, text[t..consumePos])
      invariant forall k :: t <= k <= consumePos ==> !GlobAt(pattern, end, text, k)
    {
      if !recursive && text[consumePos] == '/' {
        SlashStops(text, t, consumePos);
        return false;
      }
      assert text[t..consumePos + 1] == text[t..consumePos] + [text[consumePos]];
      consumePos := consumePos + 1;
      var here := GlobMatchesAt(pattern, end, text, consumePos, memo);
      if here {
        return true;
      }
    }
    r := false;
  }

  // Beyond a separator a single star reaches nothing.
  lemma SlashStops(text: string, t: nat, at: nat)
    requires t <= at < |text| && text[at] == '/'
    ensures forall k :: at < k <= |text| ==> HasSlash(text[t..k])
  {
    forall k | at < k <= |text| ensures HasSlash(text[t..k]) {
      assert text[t..k][at - t] == '/';
    }
  }

  method MatchEscaped(pattern: string, p: nat, text: string, t: nat, memo: Memo) returns (r: bool)
    requires p < |pattern| && pattern[p] == '\\' && t <= |text| && memo.Right(pattern, text)
    modifies memo
    ensures r == GlobAt(pattern, p, text, t) && memo.Right(pattern, text)
    decreases |pattern| - p, 0
  {
    if p + 1 >= |pattern| {
      r := t < |text| && text[t] == '\\';
      if r {
        r := GlobMatchesAt(pattern, p + 1, text, t + 1, memo);
      }
      return;
    }
    r := t < |text| && text[t] == pattern[p + 1];
    if r {
      r := GlobMatchesAt(pattern, p + 2, text, t + 1, memo);
    }
  }

  method MatchClass(pattern: string, p: nat, text: string, t: nat, memo: Memo) returns (r: bool)
    requires p < |pattern| && pattern[p] == '[' && t <= |text| && memo.Right(pattern, text)
    modifies memo
    ensures r == GlobAt(pattern, p, text, t) && memo.Right(pattern, text)
    decreases |pattern| - p, 0
  {
    var parsed := ParseCharacterClass(pattern, p);
    if parsed.None? {
      r := t < |text| && text[t] == '[';
      if r {
        r := GlobMatchesAt(pattern, p + 1, text, t + 1, memo);
      }
      return;
    }
    if t == |text| {
      return false;
    }
    r := text[t] != '/' && ClassMatches(parsed.value.0, text[t]);
    if r {
      r := GlobMatchesAt(pattern, parsed.value.1, text, t + 1, memo);
    }
  }

  method ParseCharacterClass(pattern: string, openPos: nat) returns (r: Option<(Class, nat)>)
    requires openPos < |pattern|
    ensures r == ParseClass(pattern, openPos)
  {
    var pos := openPos + 1;
    var negated := pos < |pattern| && (pattern[pos] == '!' || pattern[pos] == '^');
    if negated {
      pos := pos + 1;
    }
    var ranges: seq<(char, char)> := [];
    while pos < |pattern|
      invariant ParseClass(pattern, openPos) == ParseItems(pattern, pos, negated, ranges)
      decreases |pattern| - pos
    {
      var ch := pattern[pos];
      if ch == ']' && ranges != [] {
        return Some((Class(negated, ranges), pos + 1));
      }
      if pos + 2 < |pattern| && pattern[pos + 1] == '-' && pattern[pos + 2] != ']' {
        ranges := ranges + [(ch, pattern[pos + 2])];
        pos := pos + 3;
      } else {
        ranges := ranges + [(ch, ch)];
        pos := pos + 1;
      }
    }
    r := None;
  }

  method MatchGlob(pattern: string, text: string) returns (r: bool)
    ensures r == GlobMatches(pattern, text)
    ensures r <==> Means(Pieces(Normalize(pattern), 0), Normalize(text))
  {
    var normalPattern := NormalizeFilterPath(pattern);
    var normalText := NormalizeFilterPath(text);
    var memo := new Memo();
    r := GlobMatchesAt(normalPattern, 0, normalText, 0, memo);
    GlobMatchesMeans(pattern, text);
  }
}
