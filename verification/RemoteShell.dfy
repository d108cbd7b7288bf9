/** Quoting arguments for a command line, and taking a command line apart. */
module RemoteShell {
  import opened Chars

  datatype ParseError = Empty | UnterminatedQuote | IncompleteEscape

  datatype Command = Command(program: string, args: seq<string>)

  datatype Parsing = Parsed(command: Command) | Refused(error: ParseError)

  datatype Lexer = Lexer(words: seq<string>, current: string, inSingle: bool, inDouble: bool, sawToken: bool)

  const START := Lexer([], [], false, false, false)

  /** The rest of the command line, from where the lexer stands. */
  function Lex(st: Lexer, s: string): Parsing
    decreases |s|
  {
    if s == [] then Finish(st)
    else if s[0] == '\'' && !st.inDouble then Lex(st.(inSingle := !st.inSingle, sawToken := true), s[1..])
    else if s[0] == '"' && !st.inSingle then Lex(st.(inDouble := !st.inDouble, sawToken := true), s[1..])
    else if s[0] == '\\' && !st.inSingle then
      if |s| == 1 then Refused(IncompleteEscape)
      else Lex(st.(current := st.current + [s[1]], sawToken := true), s[2..])
    else if IsSpace(s[0]) && !st.inSingle && !st.inDouble then
      Lex(if st.sawToken then st.(words := st.words + [st.current], current := [], sawToken := false) else st, s[1..])
    else Lex(st.(current := st.current + [s[0]], sawToken := true), s[1..])
  }

  function Finish(st: Lexer): Parsing {
    if st.inSingle || st.inDouble then Refused(UnterminatedQuote)
    else
      var words := if st.sawToken then st.words + [st.current] else st.words;
      if words == [] then Refused(Empty) else Parsed(Command(words[0], words[1..]))
  }

  function Parse(command: string): Parsing {
    Lex(START, command)
  }

  method ParseRemoteShellCommand(command: string) returns (r: Parsing)
    ensures r == Parse(command)
  {
    hide IsSpace;
    var words: seq<string> := [];
    var current := "";
    var inSingle, inDouble, sawToken := false, false, false;
    var i := 0;
    assert command[0..] == command;
    while i < |command|
      invariant 0 <= i <= |command|
      invariant Parse(command) == Lex(Lexer(words, current, inSingle, inDouble, sawToken), command[i..])
      decreases |command| - i
    {
      var ch := command[i];
      assert command[i..][1..] == command[i + 1..];
      assert i + 1 < |command| ==> command[i..][2..] == command[i + 2..];
      if ch == '\'' && !inDouble {
        inSingle, sawToken := !inSingle, true;
      } else if ch == '"' && !inSingle {
        inDouble, sawToken := !inDouble, true;
      } else if ch == '\\' && !inSingle {
        if i + 1 == |command| {
          return Refused(IncompleteEscape);
        }
        i := i + 1;
        current, sawToken := current + [command[i]], true;
      } else if IsSpace(ch) && !inSingle && !inDouble {
        if sawToken {
          words, current, sawToken := words + [current], [], false;
        }
      } else {
        current, sawToken := current + [ch], true;
      }
      i := i + 1;
    }
    if inSingle || inDouble {
      return Refused(UnterminatedQuote);
    }
    if sawToken {
      words := words + [current];
    }
    if words == [] {
      return Refused(Empty);
    }
    r := Parsed(Command(words[0], words[1..]));
  }

  predicate IsPlain(c: char) {
    || 'a' <= c <= 'z' || 'A' <= c <= 'Z' || '0' <= c <= '9'
    || c == '_' || c == '-' || c == '.' || c == '/' || c == ':' || c == '@'
  }

  predicate AllPlain(s: string) {
    forall c :: c in s ==> IsPlain(c)
  }

  /** A quote inside single quotes leaves them, stands in double quotes, and enters them again. */
  const QUOTED_QUOTE := "'\"'\"'"

  function Escape(s: string): string {
    if s == [] then [] else (if s[0] == '\'' then QUOTED_QUOTE else [s[0]]) + Escape(s[1..])
  }

  function ShellQuote(value: string): string {
    if value == [] then "''"
    else if AllPlain(value) then value
    else "'" + Escape(value) + "'"
  }

  function Join(values: seq<string>): string
    requires values != []
  {
    if |values| == 1 then ShellQuote(values[0]) else ShellQuote(values[0]) + " " + Join(values[1..])
  }

  predicate Between(st: Lexer) {
    !st.inSingle && !st.inDouble && !st.sawToken && st.current == []
  }

  lemma {:induction false} PlainIsWord(st: Lexer, s: string, rest: string)
    requires AllPlain(s) && !st.inSingle && !st.inDouble
    ensures Lex(st, s + rest) == Lex(st.(current := st.current + s, sawToken := st.sawToken || s != []), rest)
    decreases |s|
  {
    if s == [] {
      assert s + rest == rest && st.current + s == st.current;
    } else {
      assert s[0] in s && IsPlain(s[0]);
      assert (s + rest)[1..] == s[1..] + rest;
      assert st.current + s == st.current + [s[0]] + s[1..];
      assert forall c :: c in s[1..] ==> c in s;
      PlainIsWord(st.(current := st.current + [s[0]], sawToken := true), s[1..], rest);
    }
  }

  // Five characters that come to one quote.
  lemma QuotedQuoteIsQuote(st: Lexer, rest: string)
    requires st.inSingle && !st.inDouble
    ensures Lex(st, QUOTED_QUOTE + rest) == Lex(st.(current := st.current + ['\''], sawToken := true), rest)
  {
    hide IsSpace;
    var s := QUOTED_QUOTE + rest;
    assert s[1..] == "\"'\"'" + rest && s[1..][1..] == "'\"'" + rest;
    assert s[1..][1..][1..] == "\"'" + rest && s[1..][1..][1..][1..] == "'" + rest
      && s[1..][1..][1..][1..][1..] == rest;
    var a := st.(inSingle := false, sawToken := true);
    assert Lex(st, s) == Lex(a, s[1..]);
    var b := a.(inDouble := true);
    assert Lex(a, s[1..]) == Lex(b, s[1..][1..]);
    var c := b.(current := b.current + ['\'']);
    assert Lex(b, s[1..][1..]) == Lex(c, s[1..][1..][1..]);
    var d := c.(inDouble := false);
    assert Lex(c, s[1..][1..][1..]) == Lex(d, s[1..][1..][1..][1..]);
    assert Lex(d, s[1..][1..][1..][1..]) == Lex(d.(inSingle := true), rest);
  }

  lemma {:induction false} EscapedIsItself(st: Lexer, s: string, rest: string)
    requires st.inSingle && !st.inDouble && st.sawToken
    ensures Lex(st, Escape(s) + rest) == Lex(st.(current := st.current + s), rest)
    decreases |s|
  {
    hide IsSpace;
    if s == [] {
      assert Escape(s) + rest == rest && st.current + s == st.current;
    } else {
      var next := st.(current := st.current + [s[0]]);
      assert st.current + s == next.current + s[1..];
      EscapedIsItself(next, s[1..], rest);
      if s[0] == '\'' {
        QuotedQuoteIsQuote(st, Escape(s[1..]) + rest);
        assert Escape(s) + rest == QUOTED_QUOTE + (Escape(s[1..]) + rest);
      } else {
        assert (Escape(s) + rest)[1..] == Escape(s[1..]) + rest;
      }
    }
  }

  lemma EmptyIsWord(st: Lexer, rest: string)
    requires Between(st)
    ensures Lex(st, "''" + rest) == Lex(st.(sawToken := true), rest)
  {
    hide IsSpace;
    var inside := st.(inSingle := true, sawToken := true);
    assert ("''" + rest)[1..] == "'" + rest && ("'" + rest)[1..] == rest;
    assert Lex(st, "''" + rest) == Lex(inside, "'" + rest);
    assert Lex(inside, "'" + rest) == Lex(st.(sawToken := true), rest);
  }

  lemma EscapedIsWord(st: Lexer, value: string, rest: string)
    requires Between(st)
    ensures Lex(st, "'" + Escape(value) + "'" + rest) == Lex(st.(current := value, sawToken := true), rest)
  {
    hide IsSpace, Escape;
    var inside := st.(inSingle := true, sawToken := true);
    var tail := "'" + rest;
    var s := "'" + Escape(value) + "'" + rest;
    assert s == "'" + (Escape(value) + tail) && s[1..] == Escape(value) + tail;
    assert Lex(st, s) == Lex(inside, Escape(value) + tail);
    EscapedIsItself(inside, value, tail);
    assert tail[1..] == rest && inside.current + value == value;
    assert Lex(inside.(current := value), tail) == Lex(st.(current := value, sawToken := true), rest);
  }

  /** Between words, a quoted value is read as that value, whatever it holds. */
  lemma QuotedIsWord(st: Lexer, value: string, rest: string)
    requires Between(st)
    ensures Lex(st, ShellQuote(value) + rest) == Lex(st.(current := value, sawToken := true), rest)
  {
    hide Lex, Escape, AllPlain;
    if value == [] {
      EmptyIsWord(st, rest);
    } else if AllPlain(value) {
      PlainIsWord(st, value, rest);
      assert st.current + value == value;
    } else {
      EscapedIsWord(st, value, rest);
    }
  }

  lemma {:induction false} JoinedIsWords(words: seq<string>, values: seq<string>)
    requires values != []
    ensures Lex(Lexer(words, [], false, false, false), Join(values))
            == Parsed(Command((words + values)[0], (words + values)[1..]))
    decreases |values|
  {
    hide IsSpace, ShellQuote;
    var st := Lexer(words, [], false, false, false);
    if |values| == 1 {
      QuotedIsWord(st, values[0], []);
      assert ShellQuote(values[0]) + [] == ShellQuote(values[0]);
      assert words + values == words + [values[0]];
    } else {
      var rest := Join(values[1..]);
      QuotedIsWord(st, values[0], " " + rest);
      assert ShellQuote(values[0]) + " " + rest == ShellQuote(values[0]) + (" " + rest);
      SpaceEnds(st.(current := values[0], sawToken := true), rest);
      JoinedIsWords(words + [values[0]], values[1..]);
      assert words + [values[0]] + values[1..] == words + values;
    }
  }

  lemma SpaceEnds(st: Lexer, rest: string)
    requires st.sawToken && !st.inSingle && !st.inDouble
    ensures Lex(st, " " + rest) == Lex(st.(words := st.words + [st.current], current := [], sawToken := false), rest)
  {
    assert (" " + rest)[1..] == rest;
  }

  /** Parsing the quoted arguments, joined by spaces, gives the program and the arguments back. */
  lemma QuotingIsUndone(values: seq<string>)
    requires values != []
    ensures Parse(Join(values)) == Parsed(Command(values[0], values[1..]))
  {
    JoinedIsWords([], values);
    assert [] + values == values;
  }
}
