/** What a token stream says, symbol by symbol, and that the reader's tokens say the same. */
module TokenFrames {
  import opened Wire
  import opened TokenSpec

  datatype Symbol = Byte(value: byte) | CopyOf(block: int) | FileEnd

  function Bytes(b: seq<byte>): (s: seq<Symbol>)
    ensures |s| == |b| && forall i :: 0 <= i < |b| ==> s[i] == Byte(b[i])
  {
    seq(|b|, i requires 0 <= i < |b| => Byte(b[i]))
  }

  /** `count` copies of consecutive blocks. */
  function Copies(first: int, count: nat): (s: seq<Symbol>)
    ensures |s| == count && forall i :: 0 <= i < count ==> s[i] == CopyOf(first + i)
  {
    seq(count, i requires 0 <= i < count => CopyOf(first + i))
  }

  /** Where a reader of whole frames stands; at the start of a file the stream may end. */
  datatype Frame = Frame(rxToken: int, needsTail: bool, fed: seq<byte>, atStart: bool)

  const START := Frame(0, false, [], true)

  function Prepend(s: seq<Symbol>, r: Result<seq<Symbol>>): Result<seq<Symbol>> {
    match r
    case Ok(t) => Ok(s + t)
    case Err(e) => Err(e)
  }

  datatype Run = Run(first: int, extra: nat, rest: seq<byte>)

  /** A run frame, its flag read. */
  function ReadRun(rxToken: int, flag: byte, s: seq<byte>): (r: Result<Run>)
    ensures r.Ok? ==> |r.value.rest| <= |s|
  {
    if flag >= TOKEN_REL then
      var near: int := flag % 0x40;
      if rxToken + near > I32_MAX then Err(InvalidData)
      else
        var (count, s1) :- RunCount(s, flag / 0x40 % 2 == 1);
        Ok(Run(rxToken + near, count, s1))
    else
      var (token, s1) :- ReadI32Le(s);
      var (count, s2) :- RunCount(s1, flag % 2 == 1);
      if token < 0 then Err(InvalidData) else Ok(Run(token, count, s2))
  }

  /** All that the stream says from here on. */
  function Decode(c: Codec, f: Frame, s: seq<byte>): Result<seq<Symbol>>
    decreases |s|, 0
  {
    if s == [] then (if f.atStart then Ok([]) else Err(UnexpectedEof))
    else if IsData(s[0]) then
      var (data, s3) :- ReadData(s[0], s[1..]);
      var literal :- Inflate(c, f.fed, data);
      Prepend(Bytes(literal), Decode(c, Frame(f.rxToken, true, f.fed + data, false), s3))
    else
      var tail :- if f.needsTail then Inflate(c, f.fed, SYNC_TAIL) else Ok([]);
      Prepend(Bytes(tail), AfterFlag(c, Tailed(f), s[0], s[1..]))
  }

  function Tailed(f: Frame): Frame {
    Frame(f.rxToken, false, if f.needsTail then f.fed + SYNC_TAIL else f.fed, false)
  }

  function AfterFlag(c: Codec, f: Frame, flag: byte, s: seq<byte>): Result<seq<Symbol>>
    decreases |s|, 1
  {
    if flag == END_FLAG then Prepend([FileEnd], Decode(c, START, s))
    else
      var run :- ReadRun(f.rxToken, flag, s);
      if run.first + run.extra > I32_MAX then Err(InvalidData)
      else Prepend(Copies(run.first, run.extra + 1), Decode(c, f.(rxToken := run.first + run.extra), run.rest))
  }

  // From the reader's tokens to symbols.

  function Symbols(t: Token): seq<Symbol> {
    match t
    case LiteralToken(b) => Bytes(b)
    case CopyToken(i) => [CopyOf(i)]
    case End => [FileEnd]
  }

  function Expand(ts: seq<Token>): seq<Symbol> {
    if ts == [] then [] else Symbols(ts[0]) + Expand(ts[1..])
  }

  predicate Idle(r: Reader) {
    r.rxRun == 0 && r.savedFlag.None?
  }

  predicate ValidReader(r: Reader) {
    && 0 <= r.rxToken <= I32_MAX
    && (r.savedFlag.Some? ==> r.rxRun == 0 && !r.needsTail && !IsData(r.savedFlag.value))
  }

  /** What a reader holds back: a flag, and a tail still to be fed. */
  function Held(r: Reader): nat {
    (if r.savedFlag.Some? then 1 else 0) + if r.needsTail then 1 else 0
  }

  // A token never leaves more to do than there was.
  lemma {:induction false} Progress(c: Codec, r: Reader, s: seq<byte>)
    ensures var p := NextToken(c, r, s);
            p.Ok? ==>
              var q := p.value;
              var a, b := Held(r), Held(q.reader);
              |q.rest| < |s| || (|q.rest| == |s| && (b < a || (b == a && q.reader.rxRun < r.rxRun)))
    decreases |s| + (if r.savedFlag.Some? then 1 else 0)
  {
    hide Inflate, NextRun, ReadData;
    if r.rxRun == 0 {
      var flag := ReadFlag(r, s);
      if flag.Ok? && IsData(flag.value.0) {
        var data := ReadData(flag.value.0, flag.value.1);
        if data.Ok? {
          Progress(c, r.(savedFlag := None, fed := r.fed + data.value.0, needsTail := true), data.value.1);
        }
      }
    }
  }

  /** The tokens a reader returns until the stream is used up. */
  function Tokens(c: Codec, r: Reader, s: seq<byte>): Result<seq<Token>>
    decreases |s|, Held(r), r.rxRun
  {
    if Idle(r) && s == [] then Ok([])
    else
      Progress(c, r, s);
      var t :- NextToken(c, r, s);
      var rest :- Tokens(c, t.reader, t.rest);
      Ok([t.token] + rest)
  }

  function FrameOf(r: Reader, start: bool): Frame {
    Frame(r.rxToken, r.needsTail, r.fed, start)
  }

  /** What a reader in the middle of something still has to say. */
  function Meaning(c: Codec, r: Reader, start: bool, s: seq<byte>): Result<seq<Symbol>> {
    if r.rxRun > 0 then
      if r.rxToken + r.rxRun > I32_MAX then Err(InvalidData)
      else Prepend(Copies(r.rxToken + 1, r.rxRun), Decode(c, FrameOf(r.(rxToken := r.rxToken + r.rxRun), false), s))
    else
      match r.savedFlag
      case Some(flag) => AfterFlag(c, FrameOf(r, false), flag, s)
      case None => Decode(c, FrameOf(r, start), s)
  }

  predicate Stands(r: Reader, start: bool) {
    ValidReader(r) && (start ==> r == NEW_READER)
  }

  /** What was still to be said is the token, and then what is still to be said. */
  ghost predicate Says(c: Codec, r: Reader, start: bool, s: seq<byte>, next: Received, anew: bool)
    requires Meaning(c, r, start, s).Ok?
  {
    && Stands(next.reader, anew)
    && Meaning(c, next.reader, anew, next.rest).Ok?
    && Meaning(c, r, start, s).value == Symbols(next.token) + Meaning(c, next.reader, anew, next.rest).value
  }

  lemma CopiesFirst(first: int, count: nat, rest: seq<Symbol>)
    requires count > 0
    ensures Copies(first, count) + rest == [CopyOf(first)] + (Copies(first + 1, count - 1) + rest)
    ensures count == 1 ==> Copies(first, count) + rest == [CopyOf(first)] + rest
  {
    assert Copies(first, count) == [CopyOf(first)] + Copies(first + 1, count - 1);
  }

  lemma NextIsCopy(c: Codec, r: Reader, s: seq<byte>)
    requires ValidReader(r) && r.rxRun > 0 && r.rxToken < I32_MAX
    ensures NextToken(c, r, s)
            == Ok(Received(CopyToken(r.rxToken + 1), r.(rxToken := r.rxToken + 1, rxRun := r.rxRun - 1), s))
  {
    hide Inflate, NextRun, ReadData, ReadFlag;
  }

  lemma MeaningOfRun(c: Codec, r: Reader, start: bool, s: seq<byte>)
    requires ValidReader(r) && r.rxRun > 0 && Meaning(c, r, start, s).Ok?
    ensures var q := r.(rxToken := r.rxToken + 1, rxRun := r.rxRun - 1);
            && r.rxToken < I32_MAX && Meaning(c, q, false, s).Ok?
            && Meaning(c, r, start, s).value == [CopyOf(r.rxToken + 1)] + Meaning(c, q, false, s).value
  {
    hide Decode, AfterFlag, Copies;
    var rest := Decode(c, Frame(r.rxToken + r.rxRun, r.needsTail, r.fed, false), s).value;
    CopiesFirst(r.rxToken + 1, r.rxRun, rest);
  }

  lemma CopySays(c: Codec, r: Reader, start: bool, s: seq<byte>)
    requires Stands(r, start) && r.rxRun > 0 && Meaning(c, r, start, s).Ok?
    ensures NextToken(c, r, s).Ok? && Says(c, r, start, s, NextToken(c, r, s).value, false)
  {
    hide Decode, AfterFlag, Copies, NextToken, Meaning;
    MeaningOfRun(c, r, start, s);
    NextIsCopy(c, r, s);
  }

  // A flag after which no literal is due.
  lemma FlagSays(c: Codec, r: Reader, flag: byte, s: seq<byte>)
    requires ValidReader(r) && Idle(r) && !r.needsTail && !IsData(flag) && AfterFlag(c, FrameOf(r, false), flag, s).Ok?
    ensures flag == END_FLAG ==>
              && Meaning(c, NEW_READER, true, s).Ok?
              && AfterFlag(c, FrameOf(r, false), flag, s).value == [FileEnd] + Meaning(c, NEW_READER, true, s).value
    ensures flag != END_FLAG ==>
              var p := NextRun(r, flag, s);
              && p.Ok? && Stands(p.value.reader, false) && Meaning(c, p.value.reader, false, p.value.rest).Ok?
              && AfterFlag(c, FrameOf(r, false), flag, s).value
                 == Symbols(p.value.token) + Meaning(c, p.value.reader, false, p.value.rest).value
  {
    hide Decode, Copies, ReadI32Le, ReadU8;
    if flag != END_FLAG {
      var run := ReadRun(r.rxToken, flag, s).value;
      var rest := Decode(c, FrameOf(r, false).(rxToken := run.first + run.extra), run.rest).value;
      CopiesFirst(run.first, run.extra + 1, rest);
    }
  }

  lemma BytesThen(a: seq<byte>, rest: seq<Symbol>)
    ensures Prepend(Bytes([]), Ok(rest)) == Ok(rest)
    ensures Symbols(LiteralToken(a)) == Bytes(a)
  {
    assert Bytes([]) + rest == rest;
  }

  /** One token is what the stream says next. */
  lemma {:induction false} NextSays(c: Codec, r: Reader, start: bool, s: seq<byte>) returns (anew: bool)
    requires Stands(r, start) && Meaning(c, r, start, s).Ok? && !(Idle(r) && s == [])
    ensures NextToken(c, r, s).Ok? && Says(c, r, start, s, NextToken(c, r, s).value, anew)
    decreases |s| + (if r.savedFlag.Some? then 1 else 0)
  {
    hide Inflate, NextRun, RunCount, ReadRun;
    anew := false;
    if r.rxRun > 0 {
      CopySays(c, r, start, s);
    } else if r.savedFlag.Some? {
      FlagSays(c, r.(savedFlag := None), r.savedFlag.value, s);
      anew := r.savedFlag.value == END_FLAG;
    } else if IsData(s[0]) {
      anew := DataSays(c, r, start, s);
    } else {
      anew := OtherSays(c, r, start, s);
    }
  }

  lemma {:induction false} DataSays(c: Codec, r: Reader, start: bool, s: seq<byte>) returns (anew: bool)
    requires Stands(r, start) && Idle(r) && s != [] && IsData(s[0]) && Meaning(c, r, start, s).Ok?
    ensures NextToken(c, r, s).Ok? && Says(c, r, start, s, NextToken(c, r, s).value, anew)
    decreases |s|, 0
  {
    hide Inflate, NextRun, RunCount, ReadRun, AfterFlag, ReadData;
    anew := false;
    var (data, s3) := ReadData(s[0], s[1..]).value;
    var literal := Inflate(c, r.fed, data).value;
    var r2 := r.(fed := r.fed + data, needsTail := true);
    assert Meaning(c, r, start, s) == Prepend(Bytes(literal), Meaning(c, r2, false, s3));
    BytesThen(literal, Meaning(c, r2, false, s3).value);
    if literal == [] {
      anew := NextSays(c, r2, false, s3);
    }
  }

  lemma OtherSays(c: Codec, r: Reader, start: bool, s: seq<byte>) returns (anew: bool)
    requires Stands(r, start) && Idle(r) && s != [] && !IsData(s[0]) && Meaning(c, r, start, s).Ok?
    ensures NextToken(c, r, s).Ok? && Says(c, r, start, s, NextToken(c, r, s).value, anew)
  {
    hide Inflate, NextRun, RunCount, ReadRun, AfterFlag;
    var tail := if r.needsTail then Inflate(c, r.fed, SYNC_TAIL).value else [];
    var r2 := if r.needsTail then r.(fed := r.fed + SYNC_TAIL, needsTail := false) else r;
    assert Tailed(FrameOf(r, start)) == FrameOf(r2, false);
    assert Meaning(c, r, start, s) == Prepend(Bytes(tail), AfterFlag(c, FrameOf(r2, false), s[0], s[1..]));
    BytesThen(tail, AfterFlag(c, FrameOf(r2, false), s[0], s[1..]).value);
    if tail != [] {
      anew := false;
    } else {
      anew := s[0] == END_FLAG;
      FlagSays(c, r2, s[0], s[1..]);
    }
  }

  /** The reader refines the frames: whatever a stream says, its tokens say. */
  lemma {:induction false} TokensSay(c: Codec, r: Reader, start: bool, s: seq<byte>)
    requires Stands(r, start) && Meaning(c, r, start, s).Ok?
    ensures Tokens(c, r, s).Ok? && Expand(Tokens(c, r, s).value) == Meaning(c, r, start, s).value
    decreases |s|, Held(r), r.rxRun
  {
    if !(Idle(r) && s == []) {
      Progress(c, r, s);
      var anew := NextSays(c, r, start, s);
      hide NextToken, Meaning;
      var t := NextToken(c, r, s).value;
      TokensSay(c, t.reader, anew, t.rest);
    }
  }
}
