/** Glob patterns: how the matcher walks them, and what they mean. */
module GlobSpec {
  import opened Wire

  /** Backslashes are separators, and separators in a row are one. */
  function Normalize(path: string): (n: string)
    ensures Normal(n)
    ensures n != [] && n[0] == '/' <==> path != [] && (path[0] == '/' || path[0] == '\\')
  {
    if path == [] then []
    else
      var ch := if path[0] == '\\' then '/' else path[0];
      var rest := Normalize(path[1..]);
      if ch == '/' && rest != [] && rest[0] == '/' then rest else [ch] + rest
  }

  predicate Normal(s: string) {
    '\\' !in s && forall i :: 0 < i < |s| ==> s[i - 1] != '/' || s[i] != '/'
  }

  lemma PartIsNormal(s: string, i: nat, j: nat)
    requires Normal(s) && i <= j <= |s|
    ensures Normal(s[i..j])
  {
    var t := s[i..j];
    forall k | 0 < k < |t| ensures t[k - 1] != '/' || t[k] != '/' {
      var n := i + k;
      assert s[n - 1] != '/' || s[n] != '/';
    }
  }

  lemma {:induction false} NormalStays(s: string)
    requires Normal(s)
    ensures Normalize(s) == s
  {
    if s != [] {
      PartIsNormal(s, 1, |s|);
      NormalStays(s[1..]);
      assert s[0] in s;
      if |s| > 1 {
        assert s[1 - 1] != '/' || s[1] != '/';
        assert s[1..][0] == s[1];
      }
    }
  }

  // Character classes.

  datatype Class = Class(negated: bool, ranges: seq<(char, char)>)

  predicate InRange(c: char, range: (char, char)) {
    range.0 <= c && c <= range.1
  }

  predicate ClassMatches(class_: Class, c: char) {
    (exists i :: 0 <= i < |class_.ranges| && InRange(c, class_.ranges[i])) != class_.negated
  }

  /** Items up to the closing bracket, which closes only after the first item. */
  function ParseItems(pattern: string, pos: nat, negated: bool, ranges: seq<(char, char)>): (r: Option<(Class, nat)>)
    ensures r.Some? ==> pos < r.value.1 <= |pattern| && pattern[r.value.1 - 1] == ']'
    decreases |pattern| - pos
  {
    if pos >= |pattern| then None
    else if pattern[pos] == ']' && ranges != [] then Some((Class(negated, ranges), pos + 1))
    else if pos + 2 < |pattern| && pattern[pos + 1] == '-' && pattern[pos + 2] != ']' then
      ParseItems(pattern, pos + 3, negated, ranges + [(pattern[pos], pattern[pos + 2])])
    else ParseItems(pattern, pos + 1, negated, ranges + [(pattern[pos], pattern[pos])])
  }

  function ParseClass(pattern: string, open: nat): (r: Option<(Class, nat)>)
    ensures r.Some? ==> open + 1 < r.value.1 <= |pattern| && pattern[r.value.1 - 1] == ']'
  {
    var negated := open + 1 < |pattern| && (pattern[open + 1] == '!' || pattern[open + 1] == '^');
    ParseItems(pattern, if negated then open + 2 else open + 1, negated, [])
  }

  // The matcher's walk.

  function StarEnd(pattern: string, pos: nat): (end: nat)
    requires pos <= |pattern|
    ensures pos <= end <= |pattern|
    ensures forall i :: pos <= i < end ==> pattern[i] == '*'
    ensures end < |pattern| ==> pattern[end] != '*'
    decreases |pattern| - pos
  {
    if pos < |pattern| && pattern[pos] == '*' then StarEnd(pattern, pos + 1) else pos
  }

  predicate HasSlash(s: string) {
    '/' in s
  }

  /** Does the pattern from `p` match the text from `t`? */
  predicate GlobAt(pattern: string, p: nat, text: string, t: nat)
    requires p <= |pattern| && t <= |text|
    decreases |pattern| - p
  {
    if p == |pattern| then t == |text|
    else if pattern[p] == '*' then
      var end := StarEnd(pattern, p);
      exists k :: t <= k <= |text| && StarSpans(end - p >= 2, text[t..k]) && GlobAt(pattern, end, text, k)
    else if pattern[p] == '?' then
      t < |text| && text[t] != '/' && GlobAt(pattern, p + 1, text, t + 1)
    else if pattern[p] == '[' then
      match ParseClass(pattern, p)
      case None => t < |text| && text[t] == '[' && GlobAt(pattern, p + 1, text, t + 1)
      case Some((c, next)) =>
        t < |text| && text[t] != '/' && ClassMatches(c, text[t]) && GlobAt(pattern, next, text, t + 1)
    else if pattern[p] == '\\' then
      if p + 1 < |pattern| then t < |text| && text[t] == pattern[p + 1] && GlobAt(pattern, p + 2, text, t + 1)
      else t < |text| && text[t] == '\\' && GlobAt(pattern, p + 1, text, t + 1)
    else t < |text| && text[t] == pattern[p] && GlobAt(pattern, p + 1, text, t + 1)
  }

  predicate StarSpans(crossing: bool, part: string) {
    crossing || !HasSlash(part)
  }

  predicate GlobMatches(pattern: string, text: string) {
    GlobAt(Normalize(pattern), 0, Normalize(text), 0)
  }

  // What a pattern means.

  datatype Piece = Star(crossing: bool) | AnyOne | OneOf(class_: Class) | Exactly(c: char)

  /** The pieces a pattern is made of. */
  function Pieces(pattern: string, p: nat): seq<Piece>
    requires p <= |pattern|
    decreases |pattern| - p
  {
    if p == |pattern| then []
    else if pattern[p] == '*' then
      var end := StarEnd(pattern, p);
      [Star(end - p >= 2)] + Pieces(pattern, end)
    else if pattern[p] == '?' then [AnyOne] + Pieces(pattern, p + 1)
    else if pattern[p] == '[' then
      match ParseClass(pattern, p)
      case None => [Exactly('[')] + Pieces(pattern, p + 1)
      case Some((c, next)) => [OneOf(c)] + Pieces(pattern, next)
    else if pattern[p] == '\\' then
      if p + 1 < |pattern| then [Exactly(pattern[p + 1])] + Pieces(pattern, p + 2)
      else [Exactly('\\')] + Pieces(pattern, p + 1)
    else [Exactly(pattern[p])] + Pieces(pattern, p + 1)
  }

  /** A part of the text fits a piece. */
  predicate Fits(piece: Piece, part: string) {
    match piece
    case Star(crossing) => StarSpans(crossing, part)
    case AnyOne => |part| == 1 && part[0] != '/'
    case OneOf(c) => |part| == 1 && part[0] != '/' && ClassMatches(c, part[0])
    case Exactly(c) => part == [c]
  }

  function Joined(parts: seq<string>): string {
    if parts == [] then [] else parts[0] + Joined(parts[1..])
  }

  predicate Fit(pieces: seq<Piece>, parts: seq<string>) {
    |parts| == |pieces| && forall i :: 0 <= i < |pieces| ==> Fits(pieces[i], parts[i])
  }

  /** The text can be cut into parts, one for each piece, that fit. */
  ghost predicate Means(pieces: seq<Piece>, text: string) {
    exists parts: seq<string> :: Fit(pieces, parts) && Joined(parts) == text
  }

  lemma MeansNothing(text: string)
    ensures Means([], text) <==> text == []
  {
    if text == [] {
      var none: seq<string> := [];
      assert Fit([], none) && Joined(none) == text;
    }
  }

  // The first piece takes the front of the text, the others the rest.
  lemma MeansFirst(piece: Piece, rest: seq<Piece>, text: string)
    ensures Means([piece] + rest, text) <==>
              exists k :: 0 <= k <= |text| && Fits(piece, text[..k]) && Means(rest, text[k..])
  {
    hide Fits;
    if Means([piece] + rest, text) {
      var parts: seq<string> :| Fit([piece] + rest, parts) && Joined(parts) == text;
      var k := |parts[0]|;
      assert Fits(([piece] + rest)[0], parts[0]);
      assert text[..k] == parts[0] && text[k..] == Joined(parts[1..]);
      assert forall i :: 0 <= i < |rest| ==> ([piece] + rest)[i + 1] == rest[i];
      assert Fit(rest, parts[1..]);
    }
    if k :| 0 <= k <= |text| && Fits(piece, text[..k]) && Means(rest, text[k..]) {
      var parts: seq<string> :| Fit(rest, parts) && Joined(parts) == text[k..];
      var all := [text[..k]] + parts;
      assert all[1..] == parts;
      assert Joined(all) == text[..k] + text[k..];
      assert text[..k] + text[k..] == text;
      assert Fit([piece] + rest, all);
    }
  }

  predicate TakesOne(piece: Piece) {
    !piece.Star?
  }

  lemma OneFirst(piece: Piece, rest: seq<Piece>, text: string, t: nat)
    requires TakesOne(piece) && t <= |text|
    ensures Means([piece] + rest, text[t..]) <==> t < |text| && Fits(piece, [text[t]]) && Means(rest, text[t + 1..])
  {
    hide Means;
    MeansFirst(piece, rest, text[t..]);
    if t < |text| {
      assert text[t..][..1] == [text[t]] && text[t..][1..] == text[t + 1..];
    }
  }

  lemma StarFirst(crossing: bool, rest: seq<Piece>, text: string, t: nat)
    requires t <= |text|
    ensures Means([Star(crossing)] + rest, text[t..]) <==>
            exists k :: t <= k <= |text| && StarSpans(crossing, text[t..k]) && Means(rest, text[k..])
  {
    hide Means;
    MeansFirst(Star(crossing), rest, text[t..]);
    forall k | 0 <= k <= |text| - t ensures text[t..][..k] == text[t..t + k] && text[t..][k..] == text[t + k..] {
    }
    if j :| 0 <= j <= |text[t..]| && Fits(Star(crossing), text[t..][..j]) && Means(rest, text[t..][j..]) {
      assert StarSpans(crossing, text[t..t + j]) && Means(rest, text[t + j..]);
    }
    if k :| t <= k <= |text| && StarSpans(crossing, text[t..k]) && Means(rest, text[k..]) {
      assert text[t..][..k - t] == text[t..k] && text[t..][k - t..] == text[k..];
      assert Fits(Star(crossing), text[t..][..k - t]);
    }
  }

  /** The matcher is sound and complete: it accepts exactly what the pattern means. */
  lemma {:induction false} GlobAtMeans(pattern: string, p: nat, text: string, t: nat)
    requires p <= |pattern| && t <= |text|
    ensures GlobAt(pattern, p, text, t) <==> Means(Pieces(pattern, p), text[t..])
    decreases |pattern| - p
  {
    hide Means, ClassMatches, ParseClass, StarSpans;
    if p == |pattern| {
      MeansNothing(text[t..]);
    } else if pattern[p] == '*' {
      var end := StarEnd(pattern, p);
      StarFirst(end - p >= 2, Pieces(pattern, end), text, t);
      forall k | t <= k <= |text| ensures GlobAt(pattern, end, text, k) <==> Means(Pieces(pattern, end), text[k..]) {
        GlobAtMeans(pattern, end, text, k);
      }
    } else {
      var (piece, next) := FirstPiece(pattern, p);
      OneFirst(piece, Pieces(pattern, next), text, t);
      if t < |text| {
        GlobAtMeans(pattern, next, text, t + 1);
      }
    }
  }

  function FirstPiece(pattern: string, p: nat): (r: (Piece, nat))
    requires p < |pattern| && pattern[p] != '*'
    ensures p < r.1 <= |pattern| && TakesOne(r.0)
  {
    if pattern[p] == '?' then (AnyOne, p + 1)
    else if pattern[p] == '[' then
      match ParseClass(pattern, p)
      case None => (Exactly('['), p + 1)
      case Some((c, next)) => (OneOf(c), next)
    else if pattern[p] == '\\' then
      if p + 1 < |pattern| then (Exactly(pattern[p + 1]), p + 2) else (Exactly('\\'), p + 1)
    else (Exactly(pattern[p]), p + 1)
  }

  lemma GlobMatchesMeans(pattern: string, text: string)
    ensures GlobMatches(pattern, text) <==> Means(Pieces(Normalize(pattern), 0), Normalize(text))
  {
    GlobAtMeans(Normalize(pattern), 0, Normalize(text), 0);
    assert Normalize(text)[0..] == Normalize(text);
  }

  /** Without a closing bracket the opening one stands for itself. */
  lemma {:induction false} UnclosedItems(pattern: string, pos: nat, negated: bool, ranges: seq<(char, char)>)
    requires forall i :: pos <= i < |pattern| ==> pattern[i] != ']'
    ensures ParseItems(pattern, pos, negated, ranges).None?
    decreases |pattern| - pos
  {
    if pos < |pattern| {
      if pos + 2 < |pattern| && pattern[pos + 1] == '-' && pattern[pos + 2] != ']' {
        UnclosedItems(pattern, pos + 3, negated, ranges + [(pattern[pos], pattern[pos + 2])]);
      } else {
        UnclosedItems(pattern, pos + 1, negated, ranges + [(pattern[pos], pattern[pos])]);
      }
    }
  }

  /**
   * Since both sides are normalised, an escape never reaches the matcher: in a pattern a backslash is a separator,
   * so `\*` asks for a separator and then anything.
   */
  lemma EscapesAreSeparators(pattern: string, p: nat)
    requires p < |Normalize(pattern)|
    ensures Normalize(pattern)[p] != '\\'
  {
    assert Normalize(pattern)[p] in Normalize(pattern);
  }
}
