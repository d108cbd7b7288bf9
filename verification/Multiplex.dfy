/** Multiplexed frames: data payloads in a row, with messages in between. */
module Multiplex {
  import opened Wire

  const DATA_TAG: nat := 7
  const ERROR_CODE: nat := 1
  const MAX_PAYLOAD: nat := 0xff_ffff

  /** What outlives a reader: the bytes of the current data frame still to come, and the messages so far. */
  datatype State = State(remaining: nat, messages: seq<seq<byte>>)

  const FRESH := State(0, [])

  /** A message without its trailing line ends. */
  function TrimEnd(b: seq<byte>): seq<byte> {
    if b != [] && (b[|b| - 1] == 0x0d || b[|b| - 1] == 0x0a) then TrimEnd(b[..|b| - 1]) else b
  }

  function Record(messages: seq<seq<byte>>, payload: seq<byte>): seq<seq<byte>> {
    var message := TrimEnd(payload);
    if message == [] then messages else messages + [message]
  }

  datatype Got = Got(bytes: seq<byte>, state: State, rest: seq<byte>)

  /** On to the next data frame, past messages; an error frame or an unknown tag stops everything. */
  function NextFrame(st: State, s: seq<byte>): (r: Result<Got>)
    ensures r.Ok? ==> |r.value.rest| < |s|
    decreases |s|
  {
    var (raw, s1) :- ReadU32Le(s);
    var tag, len := raw / 0x100_0000, raw % 0x100_0000;
    if tag == DATA_TAG then Ok(Got([], State(len, st.messages), s1))
    else
      var (payload, s2) :- Take(s1, len);
      if tag < DATA_TAG || tag - DATA_TAG == ERROR_CODE then Err(InvalidData)
      else NextFrame(State(st.remaining, Record(st.messages, payload)), s2)
  }

  /** `n` bytes of data, from as many frames as it takes. */
  function Read(st: State, n: nat, s: seq<byte>): Result<Got>
    decreases |s|, n
  {
    if n == 0 then Ok(Got([], st, s))
    else if st.remaining == 0 then
      var next :- NextFrame(st, s);
      Read(next.state, n, next.rest)
    else
      var k := if n < st.remaining then n else st.remaining;
      var (b, s1) :- Take(s, k);
      var more :- Read(st.(remaining := st.remaining - k), n - k, s1);
      Ok(Got(b + more.bytes, more.state, more.rest))
  }

  /** One read after another. */
  function Both(a: Got, b: Result<Got>): Result<Got> {
    match b
    case Ok(g) => Ok(Got(a.bytes + g.bytes, g.state, g.rest))
    case Err(e) => Err(e)
  }

  /**
   * Over any bytes whatever, reading `n` and then `m`, perhaps through another reader of the same state, is reading
   * `n + m`: the same data, the same messages, the same place in the stream, or the same error.
   */
  lemma {:induction false} ReadsJoin(st: State, n: nat, m: nat, s: seq<byte>)
    ensures Read(st, n + m, s) == match Read(st, n, s)
                                  case Ok(a) => Both(a, Read(a.state, m, a.rest))
                                  case Err(e) => Err(e)
    decreases |s|, n
  {
    hide NextFrame;
    if n == 0 {
      var b := Read(st, m, s);
      if b.Ok? {
        assert [] + b.value.bytes == b.value.bytes;
      }
    } else if st.remaining == 0 {
      var next := NextFrame(st, s);
      if next.Ok? {
        ReadsJoin(next.value.state, n, m, next.value.rest);
      }
    } else {
      JoinInFrame(st, n, m, s);
    }
  }

  lemma {:induction false} JoinInFrame(st: State, n: nat, m: nat, s: seq<byte>)
    requires n > 0 && st.remaining > 0
    ensures Read(st, n + m, s) == match Read(st, n, s)
                                  case Ok(a) => Both(a, Read(a.state, m, a.rest))
                                  case Err(e) => Err(e)
    decreases |s|, n, 0
  {
    hide NextFrame;
    var k := if n < st.remaining then n else st.remaining;
    if |s| >= k && n < st.remaining {
      SplitTake(st, n, m, s);
    } else if |s| >= k {
      var st1 := st.(remaining := 0);
      ReadsJoin(st1, n - k, m, s[k..]);
      BothTwice(s[..k], Read(st1, n - k, s[k..]), m);
    }
  }

  // The first read ends inside a frame that goes on.
  lemma SplitTake(st: State, n: nat, m: nat, s: seq<byte>)
    requires 0 < n < st.remaining && n <= |s|
    ensures Read(st, n, s) == Ok(Got(s[..n], st.(remaining := st.remaining - n), s[n..]))
    ensures Read(st, n + m, s) == Both(Got(s[..n], st, []), Read(st.(remaining := st.remaining - n), m, s[n..]))
  {
    hide NextFrame;
    assert s[..n] + [] == s[..n];
    var k := if n + m < st.remaining then n + m else st.remaining;
    if m > 0 && k <= |s| {
      assert s[n..][..k - n] == s[n..k] && s[n..][k - n..] == s[k..];
      assert s[..k] == s[..n] + s[n..k];
      var more := Read(st.(remaining := st.remaining - k), n + m - k, s[k..]);
      if more.Ok? {
        assert s[..k] + more.value.bytes == s[..n] + (s[n..k] + more.value.bytes);
      }
    }
  }

  lemma BothTwice(head: seq<byte>, first: Result<Got>, m: nat)
    ensures first.Ok? ==>
              var second := Read(first.value.state, m, first.value.rest);
              second.Ok? ==>
                head + (first.value.bytes + second.value.bytes) == head + first.value.bytes + second.value.bytes
  {
  }

  datatype Frame = Frame(tag: nat, payload: seq<byte>)

  /** Frames a peer sends in the ordinary course: data, and messages that are no errors. */
  predicate Ordinary(f: Frame) {
    DATA_TAG <= f.tag <= 0xff && f.tag != DATA_TAG + ERROR_CODE && |f.payload| <= MAX_PAYLOAD
  }

  function Encode(f: Frame): seq<byte>
    requires Ordinary(f)
  {
    Le(f.tag * 0x100_0000 + |f.payload|, 4) + f.payload
  }

  predicate AllOrdinary(fs: seq<Frame>) {
    forall i :: 0 <= i < |fs| ==> Ordinary(fs[i])
  }

  function EncodeAll(fs: seq<Frame>): seq<byte>
    requires AllOrdinary(fs)
  {
    if fs == [] then [] else Encode(fs[0]) + EncodeAll(fs[1..])
  }

  function DataOf(fs: seq<Frame>): seq<byte> {
    if fs == [] then [] else (if fs[0].tag == DATA_TAG then fs[0].payload else []) + DataOf(fs[1..])
  }

  /** What a reader has recorded once it has gone through these frames. */
  function MessagesOf(messages: seq<seq<byte>>, fs: seq<Frame>): seq<seq<byte>>
    decreases |fs|
  {
    if fs == [] then messages
    else MessagesOf(if fs[0].tag == DATA_TAG then messages else Record(messages, fs[0].payload), fs[1..])
  }

  /** How many frames it takes to have `n` bytes of data. */
  function Needed(fs: seq<Frame>, n: nat): (k: nat)
    requires n <= |DataOf(fs)|
    ensures k <= |fs|
  {
    if n == 0 then 0
    else if fs[0].tag == DATA_TAG && n <= |fs[0].payload| then 1
    else 1 + Needed(fs[1..], if fs[0].tag == DATA_TAG then n - |fs[0].payload| else n)
  }

  lemma HeaderReads(f: Frame, rest: seq<byte>)
    requires Ordinary(f)
    ensures var raw := f.tag * 0x100_0000 + |f.payload|;
            && raw < 0x1_0000_0000 && raw / 0x100_0000 == f.tag && raw % 0x100_0000 == |f.payload|
            && ReadU32Le(Encode(f) + rest) == Ok((raw, f.payload + rest))
  {
    var raw := f.tag * 0x100_0000 + |f.payload|;
    DivUnique(raw, 0x100_0000, f.tag, |f.payload|);
    U32RoundTrip(raw, f.payload + rest);
    assert Encode(f) + rest == Le(raw, 4) + (f.payload + rest);
  }

  // A message is recorded and passed over.
  lemma MessagePasses(st: State, f: Frame, n: nat, rest: seq<byte>)
    requires Ordinary(f) && f.tag != DATA_TAG && st.remaining == 0 && n > 0
    ensures Read(st, n, Encode(f) + rest) == Read(State(0, Record(st.messages, f.payload)), n, rest)
  {
    hide Encode, ReadU32Le, Record;
    HeaderReads(f, rest);
    TakeAppended(f.payload, rest);
  }

  lemma DataComes(st: State, f: Frame, n: nat, rest: seq<byte>)
    requires Ordinary(f) && f.tag == DATA_TAG && st.remaining == 0 && n > 0
    ensures Read(st, n, Encode(f) + rest) == Read(State(|f.payload|, st.messages), n, f.payload + rest)
  {
    hide Encode, ReadU32Le;
    HeaderReads(f, rest);
  }

  /** Where `n` bytes of data leave a reader that started in front of these frames. */
  function After(messages: seq<seq<byte>>, fs: seq<Frame>, n: nat, tail: seq<byte>): Got
    requires AllOrdinary(fs) && n <= |DataOf(fs)|
  {
    var k := Needed(fs, n);
    var reach := |DataOf(fs[..k])|;
    if n <= reach <= |DataOf(fs)| then
      Got(DataOf(fs)[..n], State(reach - n, MessagesOf(messages, fs[..k])),
          DataOf(fs)[n..reach] + (EncodeAll(fs[k..]) + tail))
    else Got([], FRESH, [])
  }

  lemma {:induction false} Reach(fs: seq<Frame>, n: nat)
    requires n <= |DataOf(fs)|
    ensures n <= |DataOf(fs[..Needed(fs, n)])| <= |DataOf(fs)|
    decreases |fs|
  {
    var k := Needed(fs, n);
    if n == 0 {
      assert fs[..0] == [];
    } else {
      assert fs[..k][1..] == fs[1..][..k - 1];
      if fs[0].tag == DATA_TAG && n <= |fs[0].payload| {
        assert fs[1..][..0] == [];
      } else {
        Reach(fs[1..], if fs[0].tag == DATA_TAG then n - |fs[0].payload| else n);
      }
    }
  }

  lemma AfterNothing(messages: seq<seq<byte>>, fs: seq<Frame>, tail: seq<byte>)
    requires AllOrdinary(fs)
    ensures After(messages, fs, 0, tail) == Got([], State(0, messages), EncodeAll(fs) + tail)
  {
    assert fs[..0] == [] && fs[0..] == fs;
    assert [] + (EncodeAll(fs) + tail) == EncodeAll(fs) + tail;
  }

  lemma AfterMessage(messages: seq<seq<byte>>, fs: seq<Frame>, n: nat, tail: seq<byte>)
    requires AllOrdinary(fs) && 0 < n <= |DataOf(fs)| && fs[0].tag != DATA_TAG
    ensures DataOf(fs) == DataOf(fs[1..])
    ensures After(messages, fs, n, tail) == After(Record(messages, fs[0].payload), fs[1..], n, tail)
  {
    hide Record, Encode;
    var k := Needed(fs, n);
    assert [] + DataOf(fs[1..]) == DataOf(fs[1..]);
    assert fs[..k][1..] == fs[1..][..k - 1] && fs[k..] == fs[1..][k - 1..];
    assert [] + DataOf(fs[1..][..k - 1]) == DataOf(fs[1..][..k - 1]);
  }

  lemma AfterPart(messages: seq<seq<byte>>, fs: seq<Frame>, n: nat, tail: seq<byte>)
    requires AllOrdinary(fs) && fs != [] && fs[0].tag == DATA_TAG && 0 < n <= |fs[0].payload| && n <= |DataOf(fs)|
    ensures var p := fs[0].payload;
            After(messages, fs, n, tail) == Got(p[..n], State(|p| - n, messages), p[n..] + (EncodeAll(fs[1..]) + tail))
  {
    FirstOf(messages, fs, 1);
    NoFrames(messages);
    hide Encode, EncodeAll, DataOf, MessagesOf;
    var p := fs[0].payload;
    assert fs[1..][..0] == [] && p + [] == p;
    assert DataOf(fs)[..n] == p[..n] && DataOf(fs)[n..|p|] == p[n..];
  }

  lemma NoFrames(messages: seq<seq<byte>>)
    ensures DataOf([]) == [] && MessagesOf(messages, []) == messages
  {
  }

  lemma NeededNext(fs: seq<Frame>, n: nat)
    requires fs != [] && fs[0].tag == DATA_TAG && |fs[0].payload| < n <= |DataOf(fs)|
    ensures n - |fs[0].payload| <= |DataOf(fs[1..])|
    ensures Needed(fs, n) == 1 + Needed(fs[1..], n - |fs[0].payload|)
  {
  }

  lemma AfterWhole(messages: seq<seq<byte>>, fs: seq<Frame>, n: nat, tail: seq<byte>)
    requires AllOrdinary(fs) && fs != [] && fs[0].tag == DATA_TAG && |fs[0].payload| < n <= |DataOf(fs)|
    ensures var p := fs[0].payload;
            && n - |p| <= |DataOf(fs[1..])|
            && var later := After(messages, fs[1..], n - |p|, tail);
            After(messages, fs, n, tail) == Got(p + later.bytes, later.state, later.rest)
  {
    hide Encode, DataOf, EncodeAll, MessagesOf, Ordinary, AllOrdinary, Needed;
    var p, rest := fs[0].payload, fs[1..];
    FirstOf(messages, fs, |fs|);
    var k := Needed(fs, n);
    NeededNext(fs, n);
    FirstOf(messages, fs, k);
    Reach(rest, n - |p|);
    assert fs[k..] == rest[k - 1..];
    Slides(DataOf(fs), p, DataOf(rest), n, |DataOf(fs[..k])|);
  }

  lemma FirstOf(messages: seq<seq<byte>>, fs: seq<Frame>, k: nat)
    requires 0 < k <= |fs| && fs[0].tag == DATA_TAG
    ensures DataOf(fs) == fs[0].payload + DataOf(fs[1..])
    ensures DataOf(fs[..k]) == fs[0].payload + DataOf(fs[1..][..k - 1])
    ensures MessagesOf(messages, fs[..k]) == MessagesOf(messages, fs[1..][..k - 1])
  {
    assert fs[..k][1..] == fs[1..][..k - 1];
  }

  lemma Slides(whole: seq<byte>, p: seq<byte>, d: seq<byte>, n: nat, m: nat)
    requires whole == p + d && |p| <= n <= m <= |whole|
    ensures whole[..n] == p + d[..n - |p|] && whole[n..m] == d[n - |p|..m - |p|]
  {
  }

  lemma FirstEncoded(fs: seq<Frame>, tail: seq<byte>)
    requires AllOrdinary(fs) && fs != []
    ensures EncodeAll(fs) + tail == Encode(fs[0]) + (EncodeAll(fs[1..]) + tail)
  {
    assert Encode(fs[0]) + EncodeAll(fs[1..]) + tail == Encode(fs[0]) + (EncodeAll(fs[1..]) + tail);
  }

  /** Reading goes exactly where the frames say. */
  lemma {:induction false} FramesRead(messages: seq<seq<byte>>, fs: seq<Frame>, n: nat, tail: seq<byte>)
    requires AllOrdinary(fs) && n <= |DataOf(fs)|
    ensures Read(State(0, messages), n, EncodeAll(fs) + tail) == Ok(After(messages, fs, n, tail))
    decreases |fs|
  {
    hide Encode, Read, Record, After, EncodeAll;
    if n == 0 {
      ReadNone(State(0, messages), EncodeAll(fs) + tail);
      AfterNothing(messages, fs, tail);
    } else {
      var f, rest := fs[0], fs[1..];
      FirstEncoded(fs, tail);
      if f.tag != DATA_TAG {
        AfterMessage(messages, fs, n, tail);
        MessagePasses(State(0, messages), f, n, EncodeAll(rest) + tail);
        FramesRead(Record(messages, f.payload), rest, n, tail);
      } else if n <= |f.payload| {
        AfterPart(messages, fs, n, tail);
        DataComes(State(0, messages), f, n, EncodeAll(rest) + tail);
        PartOfFrame(messages, f.payload, n, EncodeAll(rest) + tail);
      } else {
        AfterWhole(messages, fs, n, tail);
        DataComes(State(0, messages), f, n, EncodeAll(rest) + tail);
        WholeFrame(messages, f.payload, n, EncodeAll(rest) + tail);
        FramesRead(messages, rest, n - |f.payload|, tail);
      }
    }
  }

  lemma ReadNone(st: State, s: seq<byte>)
    ensures Read(st, 0, s) == Ok(Got([], st, s))
  {
  }

  lemma PartOfFrame(messages: seq<seq<byte>>, p: seq<byte>, n: nat, rest: seq<byte>)
    requires 0 < n <= |p|
    ensures Read(State(|p|, messages), n, p + rest) == Ok(Got(p[..n], State(|p| - n, messages), p[n..] + rest))
  {
    hide NextFrame;
    assert (p + rest)[..n] == p[..n] && (p + rest)[n..] == p[n..] + rest;
    assert p[..n] + [] == p[..n];
  }

  lemma WholeFrame(messages: seq<seq<byte>>, p: seq<byte>, n: nat, rest: seq<byte>)
    requires n > |p|
    ensures Read(State(|p|, messages), n, p + rest) == Both(Got(p, FRESH, []), Read(State(0, messages), n - |p|, rest))
  {
    hide NextFrame;
    if p == [] {
      assert [] + rest == rest;
      var r := Read(State(0, messages), n, rest);
      if r.Ok? {
        assert [] + r.value.bytes == r.value.bytes;
      }
    } else {
      assert (p + rest)[..|p|] == p && (p + rest)[|p|..] == rest;
    }
  }

  /** Reads of the given sizes, one after another, each by a reader of its own over the one state. */
  function ReadAll(st: State, sizes: seq<nat>, s: seq<byte>): Result<(seq<seq<byte>>, State, seq<byte>)>
    decreases |sizes|
  {
    if sizes == [] then Ok(([], st, s))
    else
      var first :- Read(st, sizes[0], s);
      var (more, st', s') :- ReadAll(first.state, sizes[1..], first.rest);
      Ok(([first.bytes] + more, st', s'))
  }

  function Sum(sizes: seq<nat>): nat {
    if sizes == [] then 0 else sizes[0] + Sum(sizes[1..])
  }

  function Flat(parts: seq<seq<byte>>): seq<byte> {
    if parts == [] then [] else parts[0] + Flat(parts[1..])
  }

  lemma {:induction false} SizesDoNotMatter(st: State, sizes: seq<nat>, s: seq<byte>)
    ensures match ReadAll(st, sizes, s)
            case Ok((parts, st', s')) => |parts| == |sizes| && Read(st, Sum(sizes), s) == Ok(Got(Flat(parts), st', s'))
            case Err(e) => Read(st, Sum(sizes), s) == Err(e)
    decreases |sizes|
  {
    hide Read;
    if sizes == [] {
      ReadNone(st, s);
    } else {
      ReadsJoin(st, sizes[0], Sum(sizes[1..]), s);
      var first := Read(st, sizes[0], s);
      if first.Ok? {
        SizesDoNotMatter(first.value.state, sizes[1..], first.value.rest);
      }
    }
  }

  /**
   * Multiplexing is transparent: through any frames and any read sizes, readers sharing one state get the data
   * payloads in a row, and the messages before the last data read are recorded in order.
   */
  lemma MultiplexIsTransparent(messages: seq<seq<byte>>, fs: seq<Frame>, sizes: seq<nat>, tail: seq<byte>)
    requires AllOrdinary(fs) && Sum(sizes) <= |DataOf(fs)|
    ensures var r := ReadAll(State(0, messages), sizes, EncodeAll(fs) + tail);
            && r.Ok? && Flat(r.value.0) == DataOf(fs)[..Sum(sizes)]
            && r.value.1.messages == MessagesOf(messages, fs[..Needed(fs, Sum(sizes))])
  {
    hide Read, ReadAll, Needed;
    SizesDoNotMatter(State(0, messages), sizes, EncodeAll(fs) + tail);
    FramesRead(messages, fs, Sum(sizes), tail);
    Reach(fs, Sum(sizes));
  }

  // The writer.

  function WriteFrames(frameSize: nat, buf: seq<byte>): Result<seq<byte>>
    requires frameSize > 0
    decreases |buf|
  {
    if buf == [] then Ok([])
    else
      var n := if |buf| < frameSize then |buf| else frameSize;
      if n > MAX_PAYLOAD then Err(InvalidInput)
      else
        var rest :- WriteFrames(frameSize, buf[n..]);
        Ok(Encode(Frame(DATA_TAG, buf[..n])) + rest)
  }

  function Write(frameSize: nat, buf: seq<byte>): Result<seq<byte>> {
    if buf == [] then Ok([])
    else if frameSize == 0 then Err(InvalidInput)
    else WriteFrames(frameSize, buf)
  }

  lemma {:induction false} FramesUndone(frameSize: nat, buf: seq<byte>, messages: seq<seq<byte>>, tail: seq<byte>)
    requires frameSize > 0
    ensures var r := WriteFrames(frameSize, buf);
            && (r.Ok? <==> buf == [] || frameSize <= MAX_PAYLOAD || |buf| <= MAX_PAYLOAD)
            && (r.Ok? ==> Read(State(0, messages), |buf|, r.value + tail) == Ok(Got(buf, State(0, messages), tail)))
    decreases |buf|
  {
    hide Encode, Read;
    if buf == [] {
      assert [] + tail == tail;
      ReadNone(State(0, messages), tail);
    } else {
      var n := if |buf| < frameSize then |buf| else frameSize;
      var rest := WriteFrames(frameSize, buf[n..]);
      FramesUndone(frameSize, buf[n..], messages, tail);
      if n <= MAX_PAYLOAD && rest.Ok? {
        OneFrameUndone(buf, n, messages, rest.value, tail);
      }
    }
  }

  lemma OneFrameUndone(buf: seq<byte>, n: nat, messages: seq<seq<byte>>, rest: seq<byte>, tail: seq<byte>)
    requires 0 < n <= |buf| && n <= MAX_PAYLOAD
    requires Read(State(0, messages), |buf[n..]|, rest + tail) == Ok(Got(buf[n..], State(0, messages), tail))
    ensures Read(State(0, messages), |buf|, Encode(Frame(DATA_TAG, buf[..n])) + rest + tail)
            == Ok(Got(buf, State(0, messages), tail))
  {
    hide Encode, Read;
    var f := Frame(DATA_TAG, buf[..n]);
    assert Encode(f) + rest + tail == Encode(f) + (rest + tail);
    DataComes(State(0, messages), f, |buf|, rest + tail);
    assert buf == buf[..n] + buf[n..];
    if n < |buf| {
      WholeFrame(messages, buf[..n], |buf|, rest + tail);
    } else {
      PartOfFrame(messages, buf[..n], n, rest + tail);
      ReadNone(State(0, messages), rest + tail);
      assert buf[..n] == buf && buf[n..] == [] && buf[..n][n..] == [] && [] + (rest + tail) == rest + tail;
    }
  }

  /** Exactly when writing succeeds, and that reading as many bytes then gives them back, with nothing left over. */
  lemma WriterIsUndone(frameSize: nat, buf: seq<byte>, messages: seq<seq<byte>>, tail: seq<byte>)
    ensures var r := Write(frameSize, buf);
            && (r.Ok? <==> buf == [] || 0 < frameSize <= MAX_PAYLOAD || (frameSize > 0 && |buf| <= MAX_PAYLOAD))
            && (r.Ok? ==> Read(State(0, messages), |buf|, r.value + tail) == Ok(Got(buf, State(0, messages), tail)))
  {
    if frameSize > 0 {
      FramesUndone(frameSize, buf, messages, tail);
    } else if buf == [] {
      assert [] + tail == tail;
    }
  }
}
