/** The token writer and reader as objects, each step proved against the stream's specification. */
module TokenCodec {
  import opened Seqs
  import opened Wire
  import T = TokenSpec
  import opened TokenFrames

  class RsyncDeflatedTokenWriter {
    const codec: T.Codec
    /** The compressor: all it has been given since its last reset. */
    var compressor: seq<T.Op>
    var lastToken: int
    var runStart: int
    var lastRunEnd: int
    var flushPending: bool

    function Now(): T.Writer
      reads this
    {
      T.Writer(compressor, lastToken, runStart, lastRunEnd, flushPending)
    }

    /** `sent` is what the specification sends from `before`: it has been written, or its error returned. */
    ghost predicate Did(spec: Result<T.Sent>, r: Result<()>, before: seq<byte>, after: seq<byte>)
      reads this
    {
      match spec
      case Ok(s) => r == Ok(()) && after == before + s.bytes && Now() == s.writer
      case Err(e) => r == Err(e)
    }

    constructor (c: T.Codec)
      ensures codec == c && Now() == T.NEW_WRITER
    {
      codec := c;
      compressor, lastToken, runStart, lastRunEnd, flushPending := [], -1, 0, 0, false;
    }

    method SendLiteral(w: Sink, literal: seq<byte>) returns (r: Result<()>)
      modifies this, w
      ensures Did(T.SendLiteral(codec, old(Now()), literal), r, old(w.out), w.out)
    {
      hide T.SendToken, T.SendLiteral, Continues;
      var rest := literal;
      ghost var sent := [];
      ghost var whole := T.SendLiteral(codec, Now(), literal);
      NothingSent(whole);
      while rest != []
        invariant w.out == old(w.out) + sent
        invariant Continues(whole, sent, T.SendLiteral(codec, Now(), rest))
        decreases |rest|
      {
        var n := if |rest| < T.CHUNK_SIZE then |rest| else T.CHUNK_SIZE;
        ghost var more := T.SendToken(codec, Now(), -2, rest[..n]);
        ChunkSent(whole, sent, codec, Now(), rest);
        var _ :- SendToken(w, -2, rest[..n]);
        Regroup(old(w.out), sent, more.value.bytes);
        sent := sent + more.value.bytes;
        rest := rest[n..];
      }
      AllSent(whole, sent, codec, Now());
      r := Ok(());
    }

    method SendCopy(w: Sink, blockIndex: nat) returns (r: Result<()>)
      modifies this, w
      ensures Did(T.SendPiece(codec, old(Now()), T.Copy(blockIndex)), r, old(w.out), w.out)
    {
      if blockIndex > I32_MAX {
        return Err(InvalidInput);
      }
      r := SendToken(w, blockIndex, []);
    }

    method Finish(w: Sink) returns (r: Result<()>)
      modifies this, w
      ensures Did(T.SendToken(codec, old(Now()), -1, []), r, old(w.out), w.out)
    {
      r := SendToken(w, -1, []);
    }

    method SendToken(w: Sink, token: int, data: seq<byte>) returns (r: Result<()>)
      requires -2 <= token <= I32_MAX
      modifies this, w
      ensures Did(T.SendToken(codec, old(Now()), token, data), r, old(w.out), w.out)
    {
      hide T.Settle, T.Compress;
      ghost var before := w.out;
      ghost var first := T.Settle(Now(), token, data);
      var _ :- SettleRun(w, token, data);
      lastToken := token;
      ghost var second := T.Compress(codec, Now(), token, data);
      var _ :- CompressToken(w, token, data);
      Regroup(before, first.value.bytes, second.value.bytes);
      ghost var end: seq<byte> := if token == -1 then [T.END_FLAG] else [];
      Regroup(before, first.value.bytes + second.value.bytes, end);
      if token == -1 {
        w.WriteAll([T.END_FLAG]);
      }
      r := Ok(());
    }

    /** A new file, the end of literals, or the end of a run. */
    method SettleRun(w: Sink, token: int, data: seq<byte>) returns (r: Result<()>)
      modifies this, w
      ensures Did(T.Settle(old(Now()), token, data), r, old(w.out), w.out)
    {
      hide T.PendingRun;
      if lastToken == -1 {
        compressor, lastRunEnd, runStart, flushPending := [], 0, token, false;
      } else if lastToken == -2 {
        runStart := token;
      } else if data != [] || lastToken == I32_MAX || lastToken + 1 != token
                || runStart + 65_536 > I32_MAX || token >= runStart + 65_536 {
        var _ :- WritePendingRun(w);
        lastRunEnd, runStart := lastToken, token;
      }
      r := Ok(());
    }

    method CompressToken(w: Sink, token: int, data: seq<byte>) returns (r: Result<()>)
      modifies this, w
      ensures Did(T.Compress(codec, old(Now()), token, data), r, old(w.out), w.out)
    {
      hide T.DataFrames, T.Since;
      if data != [] {
        flushPending := true;
        r := WriteDeflated(w, T.Data(data));
        return;
      } else if flushPending && token != -2 {
        var _ :- WriteDeflated(w, T.Sync);
        flushPending := false;
      }
      r := Ok(());
    }

    method WritePendingRun(w: Sink) returns (r: Result<()>)
      modifies w
      ensures Writes(r, old(w.out), w.out, T.PendingRun(Now()))
    {
      var relative, runLen := runStart - lastRunEnd, lastToken - runStart;
      if !(-0x8000_0000 <= relative <= I32_MAX) {
        return Err(InvalidData);
      }
      if !(-0x8000_0000 <= runLen <= I32_MAX) {
        return Err(InvalidData);
      }
      if runLen > 0xffff {
        return Err(InvalidData);
      }
      if 0 <= relative <= 63 {
        w.WriteAll([(if runLen == 0 then T.TOKEN_REL else T.TOKENRUN_REL) + relative]);
      } else {
        if !(-0x8000_0000 <= runStart <= I32_MAX) {
          return Err(InvalidData);
        }
        w.WriteAll([if runLen == 0 then T.TOKEN_LONG else T.TOKENRUN_LONG]);
        w.WriteAll(Le(Unsigned32(runStart), 4));
      }
      if runLen != 0 {
        w.WriteAll([runLen % 0x100, runLen / 0x100 % 0x100]);
      }
      r := Ok(());
    }

    method WriteDeflated(w: Sink, op: T.Op) returns (r: Result<()>)
      modifies this`compressor, w
      ensures var out := T.Since(codec, old(compressor), op);
              var cut := |out| - |T.SYNC_TAIL|;
              if op.Sync? && (cut < 0 || out[cut..] != T.SYNC_TAIL) then r == Err(InvalidData)
              else r == Ok(()) && compressor == old(compressor) + [op]
                   && w.out == old(w.out) + T.DataFrames(if op.Sync? then out[..cut] else out)
    {
      var out := T.Since(codec, compressor, op);
      compressor := compressor + [op];
      if op.Sync? {
        if |out| < |T.SYNC_TAIL| || out[|out| - |T.SYNC_TAIL|..] != T.SYNC_TAIL {
          return Err(InvalidData);
        }
        out := out[..|out| - |T.SYNC_TAIL|];
      }
      WriteDataChunks(w, out);
      r := Ok(());
    }
  }

  /** The whole is what has been sent and what is still to come. */
  ghost predicate Continues(whole: Result<T.Sent>, sent: seq<byte>, rest: Result<T.Sent>) {
    match rest
    case Ok(s) => whole == Ok(T.Sent(sent + s.bytes, s.writer))
    case Err(e) => whole == Err(e)
  }

  lemma NothingSent(whole: Result<T.Sent>)
    ensures Continues(whole, [], whole)
  {
    if whole.Ok? {
      assert [] + whole.value.bytes == whole.value.bytes;
    }
  }

  lemma ChunkSent(whole: Result<T.Sent>, sent: seq<byte>, c: T.Codec, w: T.Writer, rest: seq<byte>)
    requires rest != [] && Continues(whole, sent, T.SendLiteral(c, w, rest))
    ensures var n := if |rest| < T.CHUNK_SIZE then |rest| else T.CHUNK_SIZE;
            match T.SendToken(c, w, -2, rest[..n])
            case Ok(s) => Continues(whole, sent + s.bytes, T.SendLiteral(c, s.writer, rest[n..]))
            case Err(e) => whole == Err(e)
  {
    hide T.SendToken;
    var n := if |rest| < T.CHUNK_SIZE then |rest| else T.CHUNK_SIZE;
    var first := T.SendToken(c, w, -2, rest[..n]);
    if first.Ok? {
      var more := T.SendLiteral(c, first.value.writer, rest[n..]);
      if more.Ok? {
        Regroup(sent, first.value.bytes, more.value.bytes);
      }
    }
  }

  lemma AllSent(whole: Result<T.Sent>, sent: seq<byte>, c: T.Codec, w: T.Writer)
    requires Continues(whole, sent, T.SendLiteral(c, w, []))
    ensures whole == Ok(T.Sent(sent, w))
  {
    assert sent + [] == sent;
  }

  method WriteDataChunks(w: Sink, bytes: seq<byte>)
    modifies w
    ensures w.out == old(w.out) + T.DataFrames(bytes)
  {
    hide T.DataFrames;
    var rest: seq<byte> := bytes;
    ghost var start: seq<byte>, sent: seq<byte> := w.out, [];
    assert start + sent == start && sent + T.DataFrames(rest) == T.DataFrames(bytes);
    while rest != []
      invariant w.out == start + sent && T.DataFrames(bytes) == sent + T.DataFrames(rest)
      decreases |rest|
    {
      var n := if |rest| < T.MAX_DATA_COUNT then |rest| else T.MAX_DATA_COUNT;
      var head: seq<byte> := [T.DEFLATED_DATA + n / 0x100, n % 0x100];
      FirstFrame(rest, head);
      w.WriteAll(head);
      w.WriteAll(rest[..n]);
      Regroup4(start, sent, head, rest[..n]);
      Regroup(sent, head + rest[..n], T.DataFrames(rest[n..]));
      Regroup(start, sent, head + rest[..n]);
      sent := sent + (head + rest[..n]);
      rest := rest[n..];
    }
    NoFrames();
    assert sent + [] == sent;
  }

  lemma FirstFrame(rest: seq<byte>, head: seq<byte>)
    requires rest != []
    requires var n := if |rest| < T.MAX_DATA_COUNT then |rest| else T.MAX_DATA_COUNT;
             head == [T.DEFLATED_DATA + n / 0x100, n % 0x100]
    ensures var n := if |rest| < T.MAX_DATA_COUNT then |rest| else T.MAX_DATA_COUNT;
            T.DataFrames(rest) == head + rest[..n] + T.DataFrames(rest[n..])
  {
  }

  lemma NoFrames()
    ensures T.DataFrames([]) == []
  {
  }

  class RsyncDeflatedTokenReader {
    const codec: T.Codec
    /** The decompressor: all it has been fed since its last reset. */
    var decompressor: seq<byte>
    var rxToken: int
    var rxRun: nat
    var needsSyncTail: bool
    var savedFlag: Option<byte>

    function Now(): T.Reader
      reads this
    {
      T.Reader(rxToken, rxRun, needsSyncTail, savedFlag, decompressor)
    }

    constructor (c: T.Codec)
      ensures codec == c && Now() == T.NEW_READER
    {
      codec := c;
      decompressor, rxToken, rxRun, needsSyncTail, savedFlag := [], 0, 0, false, None;
    }

    /** The token and the state it leaves are the specification's, or its error is returned. */
    ghost predicate Got(spec: Result<T.Received>, r: Result<T.Token>, rest: seq<byte>)
      reads this
    {
      match spec
      case Ok(p) => r == Ok(p.token) && rest == p.rest && Now() == p.reader
      case Err(e) => r == Err(e)
    }

    method NextToken(s: Source) returns (r: Result<T.Token>)
      modifies this, s
      ensures Got(T.NextToken(codec, old(Now()), old(s.rest)), r, s.rest)
    {
      hide T.Inflate, T.NextRun;
      if rxRun > 0 {
        if rxToken >= I32_MAX {
          return Err(InvalidData);
        }
        rxToken, rxRun := rxToken + 1, rxRun - 1;
        r := CopyTokenAt();
        return;
      }
      while true
        invariant rxRun == 0
        invariant T.NextToken(codec, old(Now()), old(s.rest)) == T.NextToken(codec, Now(), s.rest)
        decreases |s.rest| + if savedFlag.Some? then 1 else 0
      {
        var flag := 0;
        if savedFlag.Some? {
          flag := savedFlag.value;
          savedFlag := None;
        } else {
          flag :- s.ReadByte();
        }
        if T.IsData(flag) {
          var data :- ReadDataFrame(s, flag);
          var literal :- InflateBytes(data);
          needsSyncTail := true;
          if literal != [] {
            return Ok(T.LiteralToken(literal));
          }
        } else {
          if needsSyncTail {
            var literal :- InflateBytes(T.SYNC_TAIL);
            needsSyncTail := false;
            if literal != [] {
              savedFlag := Some(flag);
              return Ok(T.LiteralToken(literal));
            }
          }
          if flag == T.END_FLAG {
            ResetFile();
            return Ok(T.End);
          }
          r := FirstOfRun(s, flag);
          return;
        }
      }
    }

    method CopyTokenAt() returns (r: Result<T.Token>)
      ensures r == if rxToken < 0 then Err(InvalidData) else Ok(T.CopyToken(rxToken))
    {
      if rxToken < 0 {
        return Err(InvalidData);
      }
      r := Ok(T.CopyToken(rxToken));
    }

    method ResetFile()
      modifies this
      ensures Now() == T.NEW_READER
    {
      decompressor, rxToken, rxRun, needsSyncTail, savedFlag := [], 0, 0, false, None;
    }

    method InflateBytes(input: seq<byte>) returns (r: Result<seq<byte>>)
      modifies this`decompressor
      ensures r == T.Inflate(codec, old(decompressor), input)
      ensures r.Ok? ==> decompressor == old(decompressor) + input
    {
      var before, after := codec.inflate(decompressor), codec.inflate(decompressor + input);
      if before.None? || after.None? || |before.value| > |after.value| {
        return Err(InvalidData);
      }
      decompressor := decompressor + input;
      r := Ok(after.value[|before.value|..]);
    }

    method FirstOfRun(s: Source, flag: byte) returns (r: Result<T.Token>)
      requires rxRun == 0
      modifies this, s
      ensures Got(T.NextRun(old(Now()), flag, old(s.rest)), r, s.rest)
    {
      var counted := false;
      if flag >= T.TOKEN_REL {
        var near: int := flag % 0x40;
        if rxToken + near > I32_MAX {
          return Err(InvalidData);
        }
        rxToken := rxToken + near;
        counted := flag / 0x40 % 2 == 1;
      } else {
        var token :- s.ReadI32();
        rxToken := token;
        if rxToken < 0 {
          return Err(InvalidData);
        }
        counted := flag % 2 == 1;
      }
      if counted {
        var lo :- s.ReadByte();
        var hi :- s.ReadByte();
        var low: int, high: int := lo, hi;
        rxRun := low + 0x100 * high;
      }
      r := CopyTokenAt();
    }
  }

  method ReadDataFrame(s: Source, flag: byte) returns (r: Result<seq<byte>>)
    modifies s
    ensures Reads(r, s.rest, T.ReadData(flag, old(s.rest)))
  {
    var low :- s.ReadByte();
    var top: int, bottom: int := flag % 0x40, low;
    r := s.ReadExact(0x100 * top + bottom);
  }
}
