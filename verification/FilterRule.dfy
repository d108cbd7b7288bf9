/** Filter patterns against paths, and the first rule that decides. */
module FilterRule {
  import opened Wire
  import opened Chars
  import opened GlobSpec
  import opened GlobMatcher

  datatype EntryKind = FileEntry | DirectoryEntry

  datatype Pattern = Pattern(body: string, anchored: bool, directoryOnly: bool, hasPathSeparator: bool,
                             directoryPrefix: Option<string>)

  datatype ParseError = MissingPattern | EmptyPattern

  datatype Parsing = Parsed(pattern: Pattern) | Refused(error: ParseError)

  function Trim(s: string): string {
    if s == [] then []
    else if IsSpace(s[0]) then Trim(s[1..])
    else if IsSpace(s[|s| - 1]) then Trim(s[..|s| - 1])
    else s
  }

  lemma TailOfTail(s: string, i: nat, j: nat)
    requires i + j <= |s|
    ensures s[i..][j..] == s[i + j..]
  {
  }

  /** Leading "./" go, however many. */
  function StripDots(s: string): (r: string)
    ensures |r| <= |s| && r == s[|s| - |r|..]
  {
    if |s| >= 2 && s[0] == '.' && s[1] == '/' then
      var r := StripDots(s[2..]);
      TailOfTail(s, 2, |s| - 2 - |r|);
      r
    else s
  }

  function StripSlashes(s: string): (r: string)
    ensures |r| <= |s| && r == s[|s| - |r|..]
  {
    if s != [] && s[0] == '/' then
      var r := StripSlashes(s[1..]);
      TailOfTail(s, 1, |s| - 1 - |r|);
      r
    else s
  }

  function DropSlashes(s: string): (r: string)
    ensures |r| <= |s| && r == s[..|r|]
  {
    if s != [] && s[|s| - 1] == '/' then DropSlashes(s[..|s| - 1]) else s
  }

  const TREE_SUFFIX := "/***"

  predicate EndsWith(s: string, t: string) {
    |t| <= |s| && s[|s| - |t|..] == t
  }

  /** What stands before a tree suffix. */
  function TreePrefix(body: string): Option<string> {
    if EndsWith(body, TREE_SUFFIX) then Some(body[..|body| - |TREE_SUFFIX|]) else None
  }

  function ParsePattern(raw: string): (r: Parsing)
    ensures r.Parsed? ==> r.pattern.body != [] && Normal(r.pattern.body)
  {
    var trimmed := Trim(raw);
    if trimmed == [] then Refused(MissingPattern)
    else
      var whole := Normalize(trimmed);
      var anchored := whole != [] && whole[0] == '/';
      var rest := if anchored then whole[1..] else whole;
      var directoryOnly := rest != [] && rest[|rest| - 1] == '/';
      var open := if directoryOnly then rest[..|rest| - 1] else rest;
      var body := StripDots(open);
      BodyIsNormal(whole, rest, open, body);
      if body == [] then Refused(EmptyPattern)
      else
        Parsed(Pattern(body, anchored, directoryOnly, HasSlash(body), TreePrefix(body)))
  }

  lemma BodyIsNormal(whole: string, rest: string, open: string, body: string)
    requires Normal(whole) && (rest == whole || (whole != [] && rest == whole[1..]))
    requires open == rest || (rest != [] && open == rest[..|rest| - 1])
    requires |body| <= |open| && body == open[|open| - |body|..]
    ensures Normal(body)
  {
    if rest != whole {
      PartIsNormal(whole, 1, |whole|);
    }
    if open != rest {
      PartIsNormal(rest, 0, |rest| - 1);
    }
    PartIsNormal(open, |open| - |body|, |open|);
  }

  /** The path a pattern is held against. */
  function Candidate(path: string): string {
    DropSlashes(StripDots(StripSlashes(Normalize(path))))
  }

  lemma CandidateIsNormal(path: string)
    ensures Normal(Candidate(path))
  {
    hide Normal, StripSlashes, StripDots, DropSlashes, Normalize;
    var whole := Normalize(path);
    var a := StripSlashes(whole);
    PartIsNormal(whole, |whole| - |a|, |whole|);
    assert a == whole[|whole| - |a|..|whole|];
    var b := StripDots(a);
    PartIsNormal(a, |a| - |b|, |a|);
    assert b == a[|a| - |b|..|a|];
    var c := DropSlashes(b);
    PartIsNormal(b, 0, |c|);
    assert c == b[0..|c|];
  }

  predicate HasDoubleStar(s: string) {
    exists i :: 0 < i < |s| && s[i - 1] == '*' && s[i] == '*'
  }

  /** The place where a component of the path begins. */
  predicate AtComponent(path: string, i: nat)
    requires i <= |path|
  {
    i == 0 || path[i - 1] == '/'
  }

  function BasenameAt(path: string, i: nat): (b: nat)
    requires i <= |path|
    ensures b <= i && AtComponent(path, b) && forall k :: b <= k < i ==> path[k] != '/'
  {
    if i == 0 || path[i - 1] == '/' then i else BasenameAt(path, i - 1)
  }

  /** Which parts of the path the body may match. */
  predicate Tried(p: Pattern, path: string, i: nat)
    requires i <= |path|
  {
    if p.anchored then i == 0
    else if p.hasPathSeparator || HasDoubleStar(p.body) then AtComponent(path, i)
    else i == BasenameAt(path, |path|)
  }

  /** A directory at the foot of a tree pattern. */
  predicate IsTreeRoot(p: Pattern, path: string, kind: EntryKind) {
    kind.DirectoryEntry? && p.directoryPrefix == Some(path)
  }

  predicate Matches(p: Pattern, path: string, kind: EntryKind) {
    && (p.directoryOnly ==> kind.DirectoryEntry?)
    && var c := Candidate(path);
    && c != []
    && (IsTreeRoot(p, c, kind) || exists i :: 0 <= i <= |c| && Tried(p, c, i) && GlobMatches(p.body, c[i..]))
  }

  /**
   * What a pattern accepts: the whole path if it is anchored; if it has a separator or a double star, any run of
   * final components; else the last component alone. Neither side needs normalising again.
   */
  lemma PatternMeans(p: Pattern, path: string, kind: EntryKind)
    requires Normal(p.body)
    ensures var c := Candidate(path);
            Matches(p, path, kind) <==>
            && (p.directoryOnly ==> kind.DirectoryEntry?) && c != []
            && (IsTreeRoot(p, c, kind) || exists i ::
                0 <= i <= |c| && Tried(p, c, i) && Means(Pieces(p.body, 0), c[i..]))
  {
    hide Means, GlobMatches, Candidate, Normal, Tried, IsTreeRoot, Pieces, Normalize;
    var c := Candidate(path);
    CandidateIsNormal(path);
    NormalStays(p.body);
    forall i | 0 <= i <= |c| ensures GlobMatches(p.body, c[i..]) <==> Means(Pieces(p.body, 0), c[i..]) {
      GlobMatchesMeans(p.body, c[i..]);
      PartIsNormal(c, i, |c|);
      NormalStays(c[i..]);
    }
  }

  /** An unanchored pattern that matches a path matches it anywhere deeper, unless only the tree rule did. */
  lemma DeeperStillMatches(p: Pattern, d: string, path: string, kind: EntryKind)
    requires !p.anchored && Candidate(path) == path && Candidate(d + "/" + path) == d + "/" + path
    requires Matches(p, path, kind) && !IsTreeRoot(p, path, kind)
    ensures Matches(p, d + "/" + path, kind)
  {
    hide GlobMatches, Candidate;
    var i :| 0 <= i <= |path| && Tried(p, path, i) && GlobMatches(p.body, path[i..]);
    var deep := d + "/" + path;
    var j := |d| + 1 + i;
    assert deep[j..] == path[i..];
    assert deep[|d|] == '/' && forall k :: |d| < k < |deep| ==> deep[k] == path[k - |d| - 1];
    if !(p.hasPathSeparator || HasDoubleStar(p.body)) {
      BasenameDeeper(d, path, |path|);
    }
    assert Tried(p, deep, j);
  }

  lemma {:induction false} BasenameDeeper(d: string, path: string, i: nat)
    requires i <= |path|
    ensures BasenameAt(d + "/" + path, |d| + 1 + i) == |d| + 1 + BasenameAt(path, i)
  {
    var deep := d + "/" + path;
    if i == 0 {
      assert deep[|d|] == '/';
    } else {
      assert deep[|d| + i] == path[i - 1];
      if path[i - 1] != '/' {
        BasenameDeeper(d, path, i - 1);
      }
    }
  }

  method Parse(raw: string) returns (r: Parsing)
    ensures r == ParsePattern(raw)
  {
    hide Trim, Normalize, StripDots, Normal, HasSlash, TreePrefix;
    var trimmed := Trim(raw);
    if trimmed == [] {
      return Refused(MissingPattern);
    }
    var body := NormalizeFilterPath(trimmed);
    var anchored := body != [] && body[0] == '/';
    if anchored {
      body := body[1..];
    }
    var directoryOnly := body != [] && body[|body| - 1] == '/';
    if directoryOnly {
      body := body[..|body| - 1];
    }
    body := StripLeadingDots(body);
    if body == [] {
      return Refused(EmptyPattern);
    }
    r := Parsed(Pattern(body, anchored, directoryOnly, HasSlash(body), TreePrefix(body)));
  }

  method StripLeadingDots(s: string) returns (r: string)
    ensures r == StripDots(s)
  {
    r := s;
    while |r| >= 2 && r[0] == '.' && r[1] == '/'
      invariant StripDots(s) == StripDots(r)
    {
      r := r[2..];
    }
  }

  method NormalizeCandidatePath(path: string) returns (r: string)
    ensures r == Candidate(path)
  {
    hide Normalize, Normal;
    r := NormalizeFilterPath(path);
    ghost var whole := r;
    while r != [] && r[0] == '/'
      invariant StripSlashes(whole) == StripSlashes(r)
    {
      r := r[1..];
    }
    r := StripLeadingDots(r);
    ghost var open := r;
    while r != [] && r[|r| - 1] == '/'
      invariant DropSlashes(open) == DropSlashes(r)
    {
      r := r[..|r| - 1];
    }
  }

  method PatternMatches(p: Pattern, path: string, kind: EntryKind) returns (r: bool)
    ensures r == Matches(p, path, kind)
  {
    hide GlobMatches, Candidate, Means, Pieces, Normalize, HasDoubleStar, AtComponent, BasenameAt;
    if p.directoryOnly && !kind.DirectoryEntry? {
      return false;
    }
    var c := NormalizeCandidatePath(path);
    if c == [] {
      return false;
    }
    if kind.DirectoryEntry? && p.directoryPrefix == Some(c) {
      return true;
    }
    if p.anchored {
      assert c[0..] == c && Tried(p, c, 0);
      r := MatchGlob(p.body, c);
      return;
    }
    if p.hasPathSeparator || HasDoubleStar(p.body) {
      r := AnySuffixMatches(p.body, c);
      TriedIsComponent(p, c);
      return;
    }
    assert Tried(p, c, BasenameAt(c, |c|));
    r := MatchGlob(p.body, c[BasenameAt(c, |c|)..]);
  }

  lemma TriedIsComponent(p: Pattern, path: string)
    requires !p.anchored && (p.hasPathSeparator || HasDoubleStar(p.body))
    ensures forall i :: 0 <= i <= |path| ==> (Tried(p, path, i) <==> AtComponent(path, i))
  {
  }

  /** The path itself, then what follows each separator. */
  method AnySuffixMatches(body: string, path: string) returns (r: bool)
    ensures r == exists i :: 0 <= i <= |path| && AtComponent(path, i) && GlobMatches(body, path[i..])
  {
    hide GlobMatches, Means, Pieces, Normalize;
    var i := 0;
    while i <= |path|
      invariant 0 <= i <= |path| + 1
      invariant forall k :: 0 <= k < i && AtComponent(path, k) ==> !GlobMatches(body, path[k..])
    {
      if i == 0 || path[i - 1] == '/' {
        var here := MatchGlob(body, path[i..]);
        if here {
          assert AtComponent(path, i) && GlobMatches(body, path[i..]);
          return true;
        }
      }
      i := i + 1;
    }
    r := false;
  }

  // Rules.

  datatype RuleAction = Include | Exclude | Hide | Show | Protect | Risk | ClearList | Merge | DirMerge

  datatype RuleSide = Sender | Receiver

  datatype Rule = Rule(action: RuleAction, pattern: Option<Pattern>, senderSide: bool, receiverSide: bool)

  predicate Decides(rule: Rule, path: string, kind: EntryKind, side: RuleSide) {
    && !rule.action.Merge? && !rule.action.DirMerge?
    && (if side.Sender? then rule.senderSide else rule.receiverSide)
    && rule.pattern.Some? && Matches(rule.pattern.value, path, kind)
  }

  class RuleSet {
    var rules: seq<Rule>

    constructor ()
      ensures rules == []
    {
      rules := [];
    }

    /** A clear-list rule empties the list and is not kept. */
    method Push(rule: Rule)
      modifies this
      ensures rules == if rule.action.ClearList? then [] else old(rules) + [rule]
    {
      if rule.action.ClearList? {
        rules := [];
        return;
      }
      rules := rules + [rule];
    }

    /** The first rule that applies decides; without one the entry is included. */
    method DecideForSide(path: string, kind: EntryKind, side: RuleSide) returns (action: RuleAction, index: Option<nat>)
      ensures match index
              case Some(i) => && i < |rules| && Decides(rules[i], path, kind, side) && action == rules[i].action
                              && forall j :: 0 <= j < i ==> !Decides(rules[j], path, kind, side)
              case None => action == Include && forall j :: 0 <= j < |rules| ==> !Decides(rules[j], path, kind, side)
    {
      hide Matches;
      var i := 0;
      while i < |rules|
        invariant 0 <= i <= |rules| && forall j :: 0 <= j < i ==> !Decides(rules[j], path, kind, side)
      {
        var rule := rules[i];
        if !rule.action.Merge? && !rule.action.DirMerge?
           && (if side.Sender? then rule.senderSide else rule.receiverSide)
           && rule.pattern.Some? {
          var matched := PatternMatches(rule.pattern.value, path, kind);
          if matched {
            return rule.action, Some(i);
          }
        }
        i := i + 1;
      }
      return Include, None;
    }
  }
}
