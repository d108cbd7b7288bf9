/** The multiplexed reader and writer as objects over one stream. */
module MultiplexCodec {
  import opened Wire
  import M = Multiplex

  /** Outlives the readers built over it. */
  class MultiplexReadState {
    var remaining: nat
    var messages: seq<seq<byte>>

    function Now(): M.State
      reads this
    {
      M.State(remaining, messages)
    }

    constructor ()
      ensures Now() == M.FRESH
    {
      remaining, messages := 0, [];
    }
  }

  /** The outcome is the specification's: bytes, state and place in the stream, or the error. */
  ghost predicate Got(spec: Result<M.Got>, r: Result<seq<byte>>, now: M.State, rest: seq<byte>) {
    match spec
    case Ok(g) => r == Ok(g.bytes) && now == g.state && rest == g.rest
    case Err(e) => r == Err(e)
  }

  class MultiplexedReader {
    const inner: Source
    const state: MultiplexReadState

    constructor (inner: Source, state: MultiplexReadState)
      ensures this.inner == inner && this.state == state
    {
      this.inner, this.state := inner, state;
    }

    method Read(n: nat) returns (r: Result<seq<byte>>)
      modifies inner, state
      ensures Got(M.Read(old(state.Now()), n, old(inner.rest)), r, state.Now(), inner.rest)
    {
      hide M.NextFrame, M.Read;
      var buf := [];
      ghost var whole := M.Read(state.Now(), n, inner.rest);
      NothingRead(whole);
      while |buf| < n
        invariant |buf| <= n && Continues(whole, buf, M.Read(state.Now(), n - |buf|, inner.rest))
        decreases |inner.rest|, n - |buf|
      {
        ReadTurn(state.Now(), n - |buf|, inner.rest);
        if state.remaining == 0 {
          var next := ReadNextFrame(inner, state);
          if next.Err? {
            return Err(next.error);
          }
        } else {
          var k := if n - |buf| < state.remaining then n - |buf| else state.remaining;
          ghost var s := inner.rest;
          var b :- inner.ReadExact(k);
          state.remaining := state.remaining - k;
          MoreRead(whole, buf, b, M.Read(state.Now(), n - |buf| - k, inner.rest));
          buf := buf + b;
        }
      }
      AllRead(whole, buf, state.Now(), inner.rest);
      r := Ok(buf);
    }
  }

  ghost predicate Continues(whole: Result<M.Got>, had: seq<byte>, rest: Result<M.Got>) {
    match rest
    case Ok(g) => whole == Ok(M.Got(had + g.bytes, g.state, g.rest))
    case Err(e) => whole == Err(e)
  }

  lemma NothingRead(whole: Result<M.Got>)
    ensures Continues(whole, [], whole)
  {
    if whole.Ok? {
      assert [] + whole.value.bytes == whole.value.bytes;
    }
  }

  lemma MoreRead(whole: Result<M.Got>, had: seq<byte>, b: seq<byte>, rest: Result<M.Got>)
    requires match rest
             case Ok(g) => Continues(whole, had, Ok(M.Got(b + g.bytes, g.state, g.rest)))
             case Err(e) => whole == Err(e)
    ensures Continues(whole, had + b, rest)
  {
    if rest.Ok? {
      assert had + b + rest.value.bytes == had + (b + rest.value.bytes);
    }
  }

  lemma AllRead(whole: Result<M.Got>, had: seq<byte>, st: M.State, s: seq<byte>)
    requires Continues(whole, had, M.Read(st, 0, s))
    ensures whole == Ok(M.Got(had, st, s))
  {
    assert had + [] == had;
  }

  // One turn of the reading loop.
  lemma ReadTurn(st: M.State, n: nat, s: seq<byte>)
    requires n > 0
    ensures M.Read(st, n, s) ==
            if st.remaining == 0 then
              match M.NextFrame(st, s)
              case Ok(next) => M.Read(next.state, n, next.rest)
              case Err(e) => Err(e)
            else
              var k := if n < st.remaining then n else st.remaining;
              if |s| < k then Err(UnexpectedEof)
              else
                match M.Read(st.(remaining := st.remaining - k), n - k, s[k..])
                case Ok(g) => Ok(M.Got(s[..k] + g.bytes, g.state, g.rest))
                case Err(e) => Err(e)
  {
    hide M.NextFrame;
  }

  method TrimLineEnds(b: seq<byte>) returns (t: seq<byte>)
    ensures t == M.TrimEnd(b)
  {
    t := b;
    while t != [] && (t[|t| - 1] == 0x0d || t[|t| - 1] == 0x0a)
      invariant M.TrimEnd(b) == M.TrimEnd(t)
      decreases |t|
    {
      t := t[..|t| - 1];
    }
  }

  method ReadNextFrame(inner: Source, state: MultiplexReadState) returns (r: Result<()>)
    modifies inner, state
    ensures match M.NextFrame(old(state.Now()), old(inner.rest))
            case Ok(g) => r == Ok(()) && state.Now() == g.state && inner.rest == g.rest
            case Err(e) => r == Err(e)
  {
    while true
      invariant state.remaining == old(state.remaining)
      invariant M.NextFrame(old(state.Now()), old(inner.rest)) == M.NextFrame(state.Now(), inner.rest)
      decreases |inner.rest|
    {
      var raw :- inner.ReadU32();
      var tag, len := raw / 0x100_0000, raw % 0x100_0000;
      if tag == M.DATA_TAG {
        state.remaining := len;
        return Ok(());
      }
      var payload :- inner.ReadExact(len);
      var message := TrimLineEnds(payload);
      var code := if tag < M.DATA_TAG then 0 else tag - M.DATA_TAG;
      if code == M.ERROR_CODE {
        return Err(InvalidData);
      }
      if tag < M.DATA_TAG {
        return Err(InvalidData);
      }
      if message != [] {
        state.messages := state.messages + [message];
      }
    }
  }

  class MultiplexedWriter {
    const inner: Sink
    const frameSize: nat

    constructor (inner: Sink, frameSize: nat)
      ensures this.inner == inner && this.frameSize == frameSize
    {
      this.inner, this.frameSize := inner, frameSize;
    }

    method Write(buf: seq<byte>) returns (r: Result<nat>)
      modifies inner
      ensures match M.Write(frameSize, buf)
              case Ok(b) => r == Ok(|buf|) && inner.out == old(inner.out) + b
              case Err(e) => r == Err(e)
    {
      if buf == [] {
        return Ok(0);
      }
      if frameSize == 0 {
        return Err(InvalidInput);
      }
      hide M.WriteFrames, M.Encode;
      var rest := buf;
      ghost var whole, sent := M.WriteFrames(frameSize, buf), [];
      NothingWritten(whole);
      while rest != []
        invariant inner.out == old(inner.out) + sent
        invariant Follows(whole, sent, M.WriteFrames(frameSize, rest))
        decreases |rest|
      {
        var n := if |rest| < frameSize then |rest| else frameSize;
        WriteTurn(whole, sent, frameSize, rest);
        var _ :- WriteDataFrame(inner, rest[..n]);
        ghost var frame := M.Encode(M.Frame(M.DATA_TAG, rest[..n]));
        assert old(inner.out) + sent + frame == old(inner.out) + (sent + frame);
        sent := sent + frame;
        rest := rest[n..];
      }
      AllWritten(whole, sent, frameSize);
      r := Ok(|buf|);
    }
  }

  ghost predicate Follows(whole: Result<seq<byte>>, sent: seq<byte>, rest: Result<seq<byte>>) {
    match rest
    case Ok(b) => whole == Ok(sent + b)
    case Err(e) => whole == Err(e)
  }

  lemma NothingWritten(whole: Result<seq<byte>>)
    ensures Follows(whole, [], whole)
  {
    if whole.Ok? {
      assert [] + whole.value == whole.value;
    }
  }

  lemma AllWritten(whole: Result<seq<byte>>, sent: seq<byte>, frameSize: nat)
    requires frameSize > 0 && Follows(whole, sent, M.WriteFrames(frameSize, []))
    ensures whole == Ok(sent)
  {
    assert sent + [] == sent;
  }

  lemma WriteTurn(whole: Result<seq<byte>>, sent: seq<byte>, frameSize: nat, rest: seq<byte>)
    requires frameSize > 0 && rest != [] && Follows(whole, sent, M.WriteFrames(frameSize, rest))
    ensures var n := if |rest| < frameSize then |rest| else frameSize;
            if n > M.MAX_PAYLOAD then whole == Err(InvalidInput)
            else Follows(whole, sent + M.Encode(M.Frame(M.DATA_TAG, rest[..n])), M.WriteFrames(frameSize, rest[n..]))
  {
    hide M.Encode;
    var n := if |rest| < frameSize then |rest| else frameSize;
    if n <= M.MAX_PAYLOAD {
      var more := M.WriteFrames(frameSize, rest[n..]);
      if more.Ok? {
        var frame := M.Encode(M.Frame(M.DATA_TAG, rest[..n]));
        assert sent + (frame + more.value) == sent + frame + more.value;
      }
    }
  }

  method WriteDataFrame(w: Sink, payload: seq<byte>) returns (r: Result<()>)
    modifies w
    ensures if |payload| > M.MAX_PAYLOAD then r == Err(InvalidInput)
            else r == Ok(()) && w.out == old(w.out) + M.Encode(M.Frame(M.DATA_TAG, payload))
  {
    if |payload| > M.MAX_PAYLOAD {
      return Err(InvalidInput);
    }
    w.WriteAll(Le(M.DATA_TAG * 0x100_0000 + |payload|, 4));
    w.WriteAll(payload);
    r := Ok(());
  }
}
