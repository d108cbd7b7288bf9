/** Writer and reader of the compressed token stream agree, file after file. */
module TokenTheorem {
  import opened Seqs
  import opened Wire
  import opened TokenSpec
  import opened TokenFrames

  // Reading off the codec's laws.

  lemma PartOf(c: Codec, h: seq<Op>, p: seq<byte>, q: seq<byte>)
    requires Lawful(c) && p <= q && q <= c.deflate(h)
    ensures Grows(c.inflate(p), c.inflate(q))
    ensures c.inflate(q).value <= Given(h)
  {
    hide Given, Flushes;
    if EndsInData(h) {
      var g := h + [Sync];
      assert c.deflate(h) <= c.deflate(g) && !EndsInData(g);
      assert g[..|h|] == h;
      GivenSync(h);
      Through(q, c.deflate(h), c.deflate(g));
      assert Grows(c.inflate(q), c.inflate(c.deflate(g)));
    } else {
      assert Grows(c.inflate(q), c.inflate(c.deflate(h)));
    }
  }

  lemma GivenSync(h: seq<Op>)
    ensures Given(h + [Sync]) == Given(h)
  {
    assert (h + [Sync])[..|h|] == h;
  }

  lemma GivenData(h: seq<Op>, b: seq<byte>)
    ensures Given(h + [Data(b)]) == Given(h) + b
  {
    assert (h + [Data(b)])[..|h|] == h;
  }

  lemma Through(a: seq<byte>, b: seq<byte>, c: seq<byte>)
    requires a <= b && b <= c
    ensures a <= c
  {
  }

  function Out(c: Codec, p: seq<byte>): seq<byte>
    requires c.inflate(p).Some?
  {
    c.inflate(p).value
  }

  /** What of the data given has not come out of the decompressor yet. */
  function Due(c: Codec, h: seq<Op>, fed: seq<byte>): (d: seq<byte>)
    requires c.inflate(fed).Some? && c.inflate(fed).value <= Given(h)
  {
    Given(h)[|Out(c, fed)|..]
  }

  // Feeding on: what was due splits into what comes out now and what is due later.
  lemma DueSplits(c: Codec, h: seq<Op>, fed: seq<byte>, more: seq<byte>)
    requires Lawful(c) && fed + more <= c.deflate(h)
    ensures Inflate(c, fed, more).Ok? && c.inflate(fed).Some? && c.inflate(fed).value <= Given(h)
    ensures c.inflate(fed + more).Some? && c.inflate(fed + more).value <= Given(h)
    ensures Due(c, h, fed) == Inflate(c, fed, more).value + Due(c, h, fed + more)
  {
    hide Lawful, Given;
    assert fed <= fed + more;
    Through(fed, fed + more, c.deflate(h));
    PartOf(c, h, fed, fed);
    PartOf(c, h, fed, fed + more);
    Slices(Given(h), Out(c, fed), Out(c, fed + more));
  }

  lemma Slices(g: seq<byte>, a: seq<byte>, b: seq<byte>)
    requires a <= b && b <= g
    ensures g[|a|..] == b[|a|..] + g[|b|..]
  {
  }

  lemma NothingDue(c: Codec, h: seq<Op>)
    requires Lawful(c) && !EndsInData(h)
    ensures c.inflate(c.deflate(h)).Some? && c.inflate(c.deflate(h)).value <= Given(h) && Due(c, h, c.deflate(h)) == []
  {
  }

  // Decoding what the writer puts out, piece by piece.

  lemma PrependTwice(a: seq<Symbol>, b: seq<Symbol>, r: Result<seq<Symbol>>)
    ensures Prepend(a, Prepend(b, r)) == Prepend(a + b, r)
  {
    if r.Ok? {
      assert a + (b + r.value) == a + b + r.value;
    }
  }

  lemma PrependNothing(r: Result<seq<Symbol>>)
    ensures Prepend([], r) == r
  {
    if r.Ok? {
      assert [] + r.value == r.value;
    }
  }

  lemma BytesAdd(a: seq<byte>, b: seq<byte>)
    ensures Bytes(a + b) == Bytes(a) + Bytes(b)
  {
  }

  function Fed(f: Frame, b: seq<byte>): Frame {
    if b == [] then f else Frame(f.rxToken, true, f.fed + b, false)
  }

  /** Data frames are decoded to what their bytes bring out of the decompressor. */
  lemma {:induction false} DataDecodes(c: Codec, h: seq<Op>, f: Frame, b: seq<byte>, rest: seq<byte>)
    requires Lawful(c) && f.fed + b <= c.deflate(h)
    ensures Inflate(c, f.fed, b).Ok?
    ensures Decode(c, f, DataFrames(b) + rest) == Prepend(Bytes(Inflate(c, f.fed, b).value), Decode(c, Fed(f, b), rest))
    decreases |b|
  {
    hide Lawful, Given, AfterFlag, Decode, Inflate;
    DueSplits(c, h, f.fed, b);
    if b == [] {
      PrependNothing(Decode(c, f, rest));
      InflateNothing(c, f.fed);
      assert DataFrames(b) + rest == rest;
    } else {
      var n := if |b| < MAX_DATA_COUNT then |b| else MAX_DATA_COUNT;
      MoreFrames(c, h, f, b, n, rest);
    }
  }

  lemma InflateNothing(c: Codec, fed: seq<byte>)
    requires Inflate(c, fed, []).Ok?
    ensures Inflate(c, fed, []).value == []
  {
    assert fed + [] == fed;
  }

  lemma {:induction false} MoreFrames(c: Codec, h: seq<Op>, f: Frame, b: seq<byte>, n: nat, rest: seq<byte>)
    requires Lawful(c) && f.fed + b <= c.deflate(h) && b != []
             && n == (if |b| < MAX_DATA_COUNT then |b| else MAX_DATA_COUNT)
    requires Inflate(c, f.fed, b).Ok?
    ensures Decode(c, f, DataFrames(b) + rest) == Prepend(Bytes(Inflate(c, f.fed, b).value), Decode(c, Fed(f, b), rest))
    decreases |b|, 0
  {
    hide Lawful, Given, AfterFlag, Decode, Inflate;
    var head, tail := b[..n], b[n..];
    var g := Frame(f.rxToken, true, f.fed + head, false);
    assert f.fed + head + tail == f.fed + b;
    assert f.fed + head <= f.fed + b;
    Through(f.fed + head, f.fed + b, c.deflate(h));
    DueSplits(c, h, f.fed, head);
    DueSplits(c, h, f.fed + head, tail);
    OneFrame(c, f, b, n, rest);
    DataDecodes(c, h, g, tail, rest);
    assert Fed(g, tail) == Fed(f, b);
    var x, y := Inflate(c, f.fed, head).value, Inflate(c, f.fed + head, tail).value;
    assert f.fed <= f.fed + head;
    PartOf(c, h, f.fed, f.fed + head);
    PartOf(c, h, f.fed + head, f.fed + head + tail);
    InflateAdds(c, f.fed, head, tail);
    assert head + tail == b;
    BytesAdd(x, y);
    PrependTwice(Bytes(x), Bytes(y), Decode(c, Fed(f, b), rest));
  }

  lemma InflateAdds(c: Codec, fed: seq<byte>, a: seq<byte>, b: seq<byte>)
    requires Inflate(c, fed, a).Ok? && Inflate(c, fed + a, b).Ok?
    requires Grows(c.inflate(fed), c.inflate(fed + a)) && Grows(c.inflate(fed + a), c.inflate(fed + a + b))
    ensures fed + a + b == fed + (a + b)
    ensures Inflate(c, fed, a + b) == Ok(Inflate(c, fed, a).value + Inflate(c, fed + a, b).value)
  {
    assert fed + a + b == fed + (a + b);
    var x, y, z := c.inflate(fed).value, c.inflate(fed + a).value, c.inflate(fed + a + b).value;
    assert z[|x|..] == y[|x|..] + z[|y|..];
  }

  lemma OneFrame(c: Codec, f: Frame, b: seq<byte>, n: nat, rest: seq<byte>)
    requires b != [] && n == (if |b| < MAX_DATA_COUNT then |b| else MAX_DATA_COUNT) && Inflate(c, f.fed, b[..n]).Ok?
    ensures Decode(c, f, DataFrames(b) + rest) ==
            Prepend(Bytes(Inflate(c, f.fed, b[..n]).value),
                    Decode(c, Frame(f.rxToken, true, f.fed + b[..n], false), DataFrames(b[n..]) + rest))
  {
    hide Inflate, AfterFlag, DataFrames;
    var after := DataFrames(b[n..]) + rest;
    var s := DataFrames(b) + rest;
    FrameShape(b, n, rest);
    HeaderByte(n);
    var top: int, bottom: int := s[0] % 0x40, s[1];
    assert 0x100 * top + bottom == n;
    assert s[1..][1..] == b[..n] + after;
    TakeAppended(b[..n], after);
  }

  lemma FrameShape(b: seq<byte>, n: nat, rest: seq<byte>)
    requires b != [] && n == (if |b| < MAX_DATA_COUNT then |b| else MAX_DATA_COUNT)
    ensures DataFrames(b) + rest == [DEFLATED_DATA + n / 0x100, n % 0x100] + (b[..n] + (DataFrames(b[n..]) + rest))
  {
    var head, data, tail := [DEFLATED_DATA + n / 0x100, n % 0x100], b[..n], DataFrames(b[n..]);
    Regroup4(head, data, tail, rest);
  }

  lemma HeaderByte(n: nat)
    requires n <= MAX_DATA_COUNT
    ensures IsData(DEFLATED_DATA + n / 0x100) && (DEFLATED_DATA + n / 0x100) % 0x40 == n / 0x100
    ensures 0x100 * (n / 0x100) + n % 0x100 == n
  {
  }

  /** The reader has everything of the compressed data, but perhaps for a sync tail it has yet to supply. */
  ghost predicate UpTo(c: Codec, h: seq<Op>, f: Frame) {
    !EndsInData(h) && f.fed + (if f.needsTail then SYNC_TAIL else []) == c.deflate(h)
  }

  // At a flag the reader supplies the tail, and all that was due comes out.
  lemma FlagDecodes(c: Codec, h: seq<Op>, f: Frame, flag: byte, rest: seq<byte>)
    requires Lawful(c) && UpTo(c, h, f) && !IsData(flag)
    ensures c.inflate(f.fed).Some? && c.inflate(f.fed).value <= Given(h)
    ensures Decode(c, f, [flag] + rest) ==
            Prepend(Bytes(Due(c, h, f.fed)), AfterFlag(c, Frame(f.rxToken, false, c.deflate(h), false), flag, rest))
  {
    hide Lawful, Given, AfterFlag, Inflate;
    assert ([flag] + rest)[1..] == rest;
    NothingDue(c, h);
    if f.needsTail {
      DueSplits(c, h, f.fed, SYNC_TAIL);
      assert Inflate(c, f.fed, SYNC_TAIL).value + [] == Inflate(c, f.fed, SYNC_TAIL).value;
    } else {
      assert f.fed + [] == f.fed;
    }
  }

  predicate InRange(w: Writer) {
    && 0 <= w.lastRunEnd <= I32_MAX && -2 <= w.lastToken <= I32_MAX
    && (w.lastToken >= 0 ==> 0 <= w.runStart <= w.lastToken <= w.runStart + 0xffff)
  }

  // The waiting run always fits its frame, and decodes to its copies.
  lemma RunDecodes(c: Codec, w: Writer, f: Frame, rest: seq<byte>)
    requires InRange(w) && w.lastToken >= 0 && f.rxToken == w.lastRunEnd
    ensures PendingRun(w).Ok? && PendingRun(w).value != [] && !IsData(PendingRun(w).value[0])
    ensures AfterFlag(c, f, PendingRun(w).value[0], PendingRun(w).value[1..] + rest) ==
            Prepend(Copies(w.runStart, w.lastToken - w.runStart + 1), Decode(c, f.(rxToken := w.lastToken), rest))
  {
    hide Decode, Inflate, Copies, RunCount, ReadI32Le, Le, Unsigned32;
    var relative, extra := w.runStart - w.lastRunEnd, w.lastToken - w.runStart;
    var run := PendingRun(w).value;
    var count: seq<byte> := if extra == 0 then [] else [extra % 0x100, extra / 0x100 % 0x100];
    CountReads(extra, rest);
    if 0 <= relative <= 63 {
      assert run[1..] == count;
    } else {
      I32RoundTrip(w.runStart, count + rest);
      assert run[1..] == Le(Unsigned32(w.runStart), 4) + count;
      assert run[1..] + rest == Le(Unsigned32(w.runStart), 4) + (count + rest);
    }
  }

  lemma CountReads(extra: nat, rest: seq<byte>)
    requires extra <= 0xffff
    ensures var count: seq<byte> := if extra == 0 then [] else [extra % 0x100, extra / 0x100 % 0x100];
            RunCount(count + rest, extra != 0) == Ok((extra, rest))
  {
    if extra != 0 {
      var s := [extra % 0x100, extra / 0x100 % 0x100] + rest;
      assert s[1..][1..] == rest;
      assert extra / 0x100 % 0x100 == extra / 0x100;
    } else {
      assert [] + rest == rest;
    }
  }

  /** The states the writer can be in. */
  predicate ValidWriter(w: Writer) {
    && InRange(w)
    && (w.lastToken == -2 ==> w.flushPending && EndsInBytes(w.history))
    && (w.lastToken >= 0 ==> !w.flushPending && !EndsInData(w.history))
  }

  /** A frame reader that has taken in all the writer has put out. */
  ghost predicate Linked(c: Codec, w: Writer, f: Frame) {
    if w.lastToken == -1 then f == START
    else
      && f.rxToken == w.lastRunEnd
      && if w.lastToken == -2 then
           f.fed == c.deflate(w.history) && (f.needsTail || |c.deflate(w.history)| == |c.deflate(Synced(w.history))|)
         else UpTo(c, w.history, f)
  }

  predicate Holds(c: Codec, w: Writer, f: Frame) {
    c.inflate(f.fed).Some? && c.inflate(f.fed).value <= Given(w.history)
  }

  lemma LinkedHolds(c: Codec, w: Writer, f: Frame)
    requires Lawful(c) && ValidWriter(w) && Linked(c, w, f) && w.lastToken != -1
    ensures Holds(c, w, f)
  {
    hide Lawful, Given;
    if w.lastToken == -2 {
      PartOf(c, w.history, f.fed, f.fed);
    } else {
      DueSplits(c, w.history, f.fed, if f.needsTail then SYNC_TAIL else []);
    }
  }

  /** What has been sent but not yet said: literal bytes held by the codec, and a run of copies waiting. */
  function Waiting(c: Codec, w: Writer, f: Frame): seq<Symbol>
    requires w.lastToken != -1 ==> Holds(c, w, f)
    requires InRange(w)
  {
    if w.lastToken == -1 then []
    else
      Bytes(Due(c, w.history, f.fed))
      + if w.lastToken == -2 then [] else Copies(w.runStart, w.lastToken - w.runStart + 1)
  }

  // The waiting run goes out, after all literals before it.
  lemma RunGoes(c: Codec, w: Writer, f: Frame, rest: seq<byte>)
    requires Lawful(c) && ValidWriter(w) && Linked(c, w, f) && w.lastToken >= 0
    ensures Holds(c, w, f) && PendingRun(w).Ok?
    ensures Decode(c, f, PendingRun(w).value + rest) ==
            Prepend(Waiting(c, w, f), Decode(c, Frame(w.lastToken, false, c.deflate(w.history), false), rest))
  {
    hide Lawful, Given, AfterFlag, Inflate, Decode, PendingRun, Copies;
    LinkedHolds(c, w, f);
    var g := Frame(f.rxToken, false, c.deflate(w.history), false);
    RunDecodes(c, w, g, rest);
    var run := PendingRun(w).value;
    assert run + rest == [run[0]] + (run[1..] + rest);
    FlagDecodes(c, w.history, f, run[0], run[1..] + rest);
    PrependTwice(Bytes(Due(c, w.history, f.fed)), Copies(w.runStart, w.lastToken - w.runStart + 1),
                 Decode(c, g.(rxToken := w.lastToken), rest));
  }

  lemma SinceGrows(c: Codec, h: seq<Op>, op: Op)
    requires Lawful(c)
    ensures c.deflate(h) + Since(c, h, op) == c.deflate(h + [op])
  {
    assert c.deflate(h) <= c.deflate(h + [op]);
  }

  /** Literal data goes to the codec, and out of it comes what it lets go. */
  lemma DataGoes(c: Codec, h: seq<Op>, f: Frame, data: seq<byte>, rest: seq<byte>)
    requires Lawful(c) && f.fed == c.deflate(h)
    ensures var g := h + [Data(data)];
            var out := Since(c, h, Data(data));
            && Fed(f, out).fed == c.deflate(g) && Inflate(c, f.fed, out).Ok?
            && c.inflate(f.fed).Some? && c.inflate(f.fed).value <= Given(h)
            && c.inflate(c.deflate(g)).Some? && c.inflate(c.deflate(g)).value <= Given(g)
            && Decode(c, f, DataFrames(out) + rest)
               == Prepend(Bytes(Inflate(c, f.fed, out).value), Decode(c, Fed(f, out), rest))
            && Bytes(Due(c, h, f.fed)) + Bytes(data)
               == Bytes(Inflate(c, f.fed, out).value) + Bytes(Due(c, g, c.deflate(g)))
  {
    hide Lawful, Given, Inflate, Decode, DataFrames, Since;
    var g := h + [Data(data)];
    var out := Since(c, h, Data(data));
    SinceGrows(c, h, Data(data));
    assert out == [] ==> f.fed + out == f.fed;
    PartOf(c, h, f.fed, f.fed);
    DueSplits(c, g, f.fed, out);
    DataDecodes(c, g, f, out, rest);
    GivenData(h, data);
    LaterDue(c, h, g, f.fed, data);
    BytesAdd(Due(c, h, f.fed), data);
    BytesAdd(Inflate(c, f.fed, out).value, Due(c, g, c.deflate(g)));
  }

  lemma LaterDue(c: Codec, h: seq<Op>, g: seq<Op>, fed: seq<byte>, data: seq<byte>)
    requires Given(g) == Given(h) + data && c.inflate(fed).Some? && c.inflate(fed).value <= Given(h)
    ensures c.inflate(fed).value <= Given(g) && Due(c, g, fed) == Due(c, h, fed) + data
  {
    hide Given;
  }

  /** The bytes of a sync flush that are sent: all but the tail. */
  function SyncSent(c: Codec, h: seq<Op>): seq<byte> {
    var out := Since(c, h, Sync);
    if |out| < |SYNC_TAIL| then [] else out[..|out| - |SYNC_TAIL|]
  }

  predicate EndsInTail(out: seq<byte>) {
    |out| >= |SYNC_TAIL| && out[|out| - |SYNC_TAIL|..] == SYNC_TAIL
  }

  ghost predicate SyncDecodes(c: Codec, h: seq<Op>, f: Frame, rest: seq<byte>) {
    var g, f' := h + [Sync], Fed(f, SyncSent(c, h));
    && EndsInTail(Since(c, h, Sync)) && UpTo(c, g, f') && Inflate(c, f.fed, SyncSent(c, h)).Ok?
    && c.inflate(f.fed).Some? && c.inflate(f.fed).value <= Given(h)
    && c.inflate(f'.fed).Some? && c.inflate(f'.fed).value <= Given(g)
    && var came := Bytes(Inflate(c, f.fed, SyncSent(c, h)).value);
    && Decode(c, f, DataFrames(SyncSent(c, h)) + rest) == Prepend(came, Decode(c, f', rest))
    && Bytes(Due(c, h, f.fed)) == came + Bytes(Due(c, g, f'.fed))
  }

  /** A sync flush: all comes out but the tail, which the reader will supply. */
  lemma SyncGoes(c: Codec, h: seq<Op>, f: Frame, rest: seq<byte>)
    requires Lawful(c) && EndsInBytes(h) && f.fed == c.deflate(h)
             && (f.needsTail || |c.deflate(h)| == |c.deflate(Synced(h))|)
    ensures SyncDecodes(c, h, f, rest)
  {
    hide Lawful, Given, Inflate, Decode, DataFrames, Since, Flushes, Synced;
    FlushShape(c, h);
    var g := h + [Sync];
    var out, sent := Since(c, h, Sync), SyncSent(c, h);
    SinceGrows(c, h, Sync);
    assert out == sent + SYNC_TAIL;
    assert f.fed + out == f.fed + sent + SYNC_TAIL;
    assert sent == [] ==> f.fed + sent == f.fed;
    PartOf(c, h, f.fed, f.fed);
    GivenSync(h);
    assert f.fed + sent <= c.deflate(g);
    DueSplits(c, g, f.fed, sent);
    DataDecodes(c, g, f, sent, rest);
    SameDue(c, h, g, f.fed);
    BytesAdd(Inflate(c, f.fed, sent).value, Due(c, g, f.fed + sent));
  }

  lemma SameDue(c: Codec, h: seq<Op>, g: seq<Op>, fed: seq<byte>)
    requires Given(g) == Given(h) && c.inflate(fed).Some? && c.inflate(fed).value <= Given(h)
    ensures Due(c, g, fed) == Due(c, h, fed)
  {
  }

  lemma FlushLaw(c: Codec, h: seq<Op>)
    requires Lawful(c) && EndsInBytes(h)
    ensures Flushes(c.deflate(h), c.deflate(h + [Sync]), c.deflate(Synced(h))) && c.deflate(h) <= c.deflate(h + [Sync])
  {
    hide Inflates, Flushes, Synced, EndsInBytes;
  }

  // The flush ends in the tail, and if the reader has had nothing yet then it has something now.
  lemma FlushShape(c: Codec, h: seq<Op>)
    requires Lawful(c) && EndsInBytes(h)
    ensures var out := Since(c, h, Sync);
            EndsInTail(out) && (|c.deflate(h)| == |c.deflate(Synced(h))| ==> |out| > |SYNC_TAIL|)
  {
    hide Lawful, Synced, EndsInBytes;
    FlushLaw(c, h);
    var a, b := c.deflate(h), c.deflate(h + [Sync]);
    assert b[|a|..][|b| - |a| - |SYNC_TAIL|..] == b[|b| - |SYNC_TAIL|..];
  }

  /** A stretch of sending: the bytes decode, and what was waiting and what is said come out or are waiting. */
  ghost predicate Advances(c: Codec, w: Writer, f: Frame, said: seq<Symbol>, sent: Sent, rest: seq<byte>, g: Frame,
                           out: seq<Symbol>) {
    && ValidWriter(w) && (w.lastToken != -1 ==> Holds(c, w, f))
    && ValidWriter(sent.writer) && Linked(c, sent.writer, g)
       && (sent.writer.lastToken != -1 ==> Holds(c, sent.writer, g))
    && Decode(c, f, sent.bytes + rest) == Prepend(out, Decode(c, g, rest))
    && Waiting(c, w, f) + said == out + Waiting(c, sent.writer, g)
  }

  lemma StartFed(c: Codec)
    requires Lawful(c)
    ensures c.deflate([]) == START.fed && c.inflate([]).Some? && c.inflate([]).value == []
  {
    hide Grows, Flushes;
    assert !EndsInData([]);
    assert c.inflate(c.deflate([])) == Some(Given([]));
  }

  // After data, either the reader owes a tail or the codec has let nothing go since the last flush.
  lemma DataLinks(c: Codec, h: seq<Op>, f: Frame, data: seq<byte>)
    requires Lawful(c) && f.fed == c.deflate(h) && data != []
    requires EndsInData(h) ==> f.needsTail || |c.deflate(h)| == |c.deflate(Synced(h))|
    ensures var g := h + [Data(data)];
            var f' := Fed(f, Since(c, h, Data(data)));
            && EndsInBytes(g) && f'.rxToken == f.rxToken
            && (f'.needsTail || |c.deflate(g)| == |c.deflate(Synced(g))|)
  {
    var g := h + [Data(data)];
    hide Lawful;
    SinceGrows(c, h, Data(data));
    assert g[..|h|] == h;
  }

  lemma LiteralGoesOn(c: Codec, w: Writer, f: Frame, data: seq<byte>, rest: seq<byte>)
    returns (g: Frame, out: seq<Symbol>)
    requires Lawful(c) && ValidWriter(w) && Linked(c, w, f) && data != [] && w.lastToken < 0
    ensures SendToken(c, w, -2, data).Ok?
    ensures Advances(c, w, f, Bytes(data), SendToken(c, w, -2, data).value, rest, g, out)
  {
    hide Lawful, Given, Inflate, Decode, DataFrames, Since, Copies, Bytes, Synced;
    StartFed(c);
    var h := if w.lastToken == -1 then [] else w.history;
    var more := Since(c, h, Data(data));
    DataGoes(c, h, f, data, rest);
    DataLinks(c, h, f, data);
    g := Fed(f, more);
    out := Bytes(Inflate(c, f.fed, more).value);
    var sent := SendToken(c, w, -2, data).value;
    assert sent.bytes == DataFrames(more);
    if w.lastToken == -1 {
      NoneDue(c, f.fed, data);
    }
    AddNothing(Bytes(Due(c, h, f.fed)));
    AddNothing(Bytes(Due(c, sent.writer.history, g.fed)));
  }

  lemma AddNothing(s: seq<Symbol>)
    ensures s + [] == s && [] + s == s
  {
  }

  lemma NoneDue(c: Codec, fed: seq<byte>, data: seq<byte>)
    requires c.inflate(fed).Some? && c.inflate(fed).value == []
    ensures Bytes(Due(c, [], fed)) == []
  {
  }

  lemma LiteralAfterRun(c: Codec, w: Writer, f: Frame, data: seq<byte>, rest: seq<byte>)
    returns (g: Frame, out: seq<Symbol>)
    requires Lawful(c) && ValidWriter(w) && Linked(c, w, f) && data != [] && w.lastToken >= 0
    ensures SendToken(c, w, -2, data).Ok?
    ensures Advances(c, w, f, Bytes(data), SendToken(c, w, -2, data).value, rest, g, out)
  {
    hide Lawful, Given, Inflate, Decode, DataFrames, Since, PendingRun, Copies, Bytes, Synced, Waiting;
    var h := w.history;
    var more := Since(c, h, Data(data));
    var frames := DataFrames(more);
    var f1 := Frame(w.lastToken, false, c.deflate(h), false);
    RunGoes(c, w, f, frames + rest);
    DataGoes(c, h, f1, data, rest);
    DataLinks(c, h, f1, data);
    g := Fed(f1, more);
    var came := Bytes(Inflate(c, f1.fed, more).value);
    out := Waiting(c, w, f) + came;
    PrependTwice(Waiting(c, w, f), came, Decode(c, g, rest));
    var sent := SendToken(c, w, -2, data).value;
    assert sent.bytes + rest == PendingRun(w).value + (frames + rest);
    FlushedDue(c, h);
    AddNothing(Bytes(data));
    WaitingData(c, sent.writer, g);
    assert out + Bytes(Due(c, sent.writer.history, g.fed))
      == Waiting(c, w, f) + (came + Bytes(Due(c, sent.writer.history, g.fed)));
  }

  lemma FlushedDue(c: Codec, h: seq<Op>)
    requires Lawful(c) && !EndsInData(h)
    ensures c.inflate(c.deflate(h)).Some? && c.inflate(c.deflate(h)).value <= Given(h)
            && Bytes(Due(c, h, c.deflate(h))) == []
  {
    NothingDue(c, h);
  }

  lemma WaitingData(c: Codec, w: Writer, f: Frame)
    requires InRange(w) && w.lastToken == -2 && Holds(c, w, f)
    ensures Waiting(c, w, f) == Bytes(Due(c, w.history, f.fed))
  {
    AddNothing(Bytes(Due(c, w.history, f.fed)));
  }

  /** A copy after literals: they are flushed, and a run begins. */
  lemma CopyAfterLiteral(c: Codec, w: Writer, f: Frame, block: nat, rest: seq<byte>)
    returns (g: Frame, out: seq<Symbol>)
    requires Lawful(c) && ValidWriter(w) && Linked(c, w, f) && w.lastToken == -2 && block <= I32_MAX
    ensures SendToken(c, w, block, []).Ok?
    ensures Advances(c, w, f, [CopyOf(block)], SendToken(c, w, block, []).value, rest, g, out)
  {
    hide Lawful, Given, Inflate, Decode, DataFrames, SendToken, Since, SyncSent, Copies, Bytes, Due, Synced;
    var h := w.history;
    SyncGoes(c, h, f, rest);
    g := Fed(f, SyncSent(c, h));
    out := Bytes(Inflate(c, f.fed, SyncSent(c, h)).value);
    CopySent(c, w, block);
    OneCopy(block);
    AddNothing(Bytes(Due(c, h, f.fed)));
    Regroup(out, Bytes(Due(c, h + [Sync], g.fed)), [CopyOf(block)]);
  }

  // What the writer does with a copy behind a literal: a flush, and a run begun.
  lemma CopySent(c: Codec, w: Writer, block: nat)
    requires ValidWriter(w) && w.lastToken == -2 && EndsInTail(Since(c, w.history, Sync))
    ensures SendToken(c, w, block, [])
         == Ok(Sent(DataFrames(SyncSent(c, w.history)),
                    w.(history := w.history + [Sync], lastToken := block, runStart := block, flushPending := false)))
  {
    hide DataFrames, Since, PendingRun;
    assert [] + DataFrames(SyncSent(c, w.history)) + [] == DataFrames(SyncSent(c, w.history));
  }

  lemma OneCopy(block: int)
    ensures Copies(block, 1) == [CopyOf(block)]
  {
  }

  /** A copy first thing in a file. */
  lemma CopyStarts(c: Codec, w: Writer, f: Frame, block: nat, rest: seq<byte>)
    requires Lawful(c) && ValidWriter(w) && Linked(c, w, f) && w.lastToken == -1 && block <= I32_MAX
    ensures SendToken(c, w, block, []).Ok?
    ensures Advances(c, w, f, [CopyOf(block)], SendToken(c, w, block, []).value, rest, f, [])
  {
    hide Lawful, Inflate, Decode, DataFrames, Since, Copies, Bytes, Synced;
    StartFed(c);
    var sent := SendToken(c, w, block, []).value;
    assert sent.bytes == [] && sent.bytes + rest == rest;
    PrependNothing(Decode(c, f, rest));
    NoneDue(c, f.fed, []);
    OneCopy(block);
  }

  /** A copy that lengthens the run waiting. */
  lemma CopyExtends(c: Codec, w: Writer, f: Frame, block: nat, rest: seq<byte>)
    requires Lawful(c) && ValidWriter(w) && Linked(c, w, f) && w.lastToken >= 0 && block <= I32_MAX
             && !EndsRun(w, block, [])
    ensures SendToken(c, w, block, []).Ok?
    ensures Advances(c, w, f, [CopyOf(block)], SendToken(c, w, block, []).value, rest, f, [])
  {
    hide Lawful, Given, Inflate, Decode, DataFrames, Since, Bytes, Synced, PendingRun;
    LinkedHolds(c, w, f);
    var sent := SendToken(c, w, block, []).value;
    assert sent.bytes == [] && sent.bytes + rest == rest;
    PrependNothing(Decode(c, f, rest));
    assert Copies(w.runStart, block - w.runStart + 1)
      == Copies(w.runStart, w.lastToken - w.runStart + 1) + [CopyOf(block)];
    assert Waiting(c, w, f) + [CopyOf(block)] == [] + Waiting(c, sent.writer, f);
  }

  /** A copy that does not follow on: the run waiting goes out, and a new one begins. */
  lemma CopyAfterRun(c: Codec, w: Writer, f: Frame, block: nat, rest: seq<byte>) returns (g: Frame, out: seq<Symbol>)
    requires Lawful(c) && ValidWriter(w) && Linked(c, w, f) && w.lastToken >= 0 && block <= I32_MAX
             && EndsRun(w, block, [])
    ensures SendToken(c, w, block, []).Ok?
    ensures Advances(c, w, f, [CopyOf(block)], SendToken(c, w, block, []).value, rest, g, out)
  {
    hide Lawful, Given, Inflate, Decode, DataFrames, Since, PendingRun, Copies, Bytes, Synced;
    var h := w.history;
    RunGoes(c, w, f, rest);
    FlushedDue(c, h);
    g := Frame(w.lastToken, false, c.deflate(h), false);
    out := Waiting(c, w, f);
    var sent := SendToken(c, w, block, []).value;
    assert sent.bytes == PendingRun(w).value;
    assert g.fed + [] == g.fed;
    OneCopy(block);
    AddNothing([CopyOf(block)]);
  }

  lemma CopyGoes(c: Codec, w: Writer, f: Frame, block: nat, rest: seq<byte>) returns (g: Frame, out: seq<Symbol>)
    requires Lawful(c) && ValidWriter(w) && Linked(c, w, f) && block <= I32_MAX
    ensures SendToken(c, w, block, []).Ok?
    ensures Advances(c, w, f, [CopyOf(block)], SendToken(c, w, block, []).value, rest, g, out)
  {
    hide Lawful, Linked, Advances, SendToken;
    g, out := f, [];
    if w.lastToken == -2 {
      g, out := CopyAfterLiteral(c, w, f, block, rest);
    } else if w.lastToken == -1 {
      CopyStarts(c, w, f, block, rest);
    } else if EndsRun(w, block, []) {
      g, out := CopyAfterRun(c, w, f, block, rest);
    } else {
      CopyExtends(c, w, f, block, rest);
    }
  }

  lemma DataPieceGoes(c: Codec, w: Writer, f: Frame, data: seq<byte>, rest: seq<byte>)
    returns (g: Frame, out: seq<Symbol>)
    requires Lawful(c) && ValidWriter(w) && Linked(c, w, f) && data != []
    ensures SendToken(c, w, -2, data).Ok?
    ensures Advances(c, w, f, Bytes(data), SendToken(c, w, -2, data).value, rest, g, out)
  {
    hide Lawful, Linked, Advances, SendToken;
    if w.lastToken < 0 {
      g, out := LiteralGoesOn(c, w, f, data, rest);
    } else {
      g, out := LiteralAfterRun(c, w, f, data, rest);
    }
  }

  /** The end of a file: everything waiting is said, and both ends start afresh. */
  lemma EndGoes(c: Codec, w: Writer, f: Frame, rest: seq<byte>)
    requires Lawful(c) && ValidWriter(w) && Linked(c, w, f)
    ensures SendToken(c, w, -1, []).Ok? && (w.lastToken != -1 ==> Holds(c, w, f))
    ensures var sent := SendToken(c, w, -1, []).value;
            && ValidWriter(sent.writer) && sent.writer.lastToken == -1
            && Decode(c, f, sent.bytes + rest) == Prepend(Waiting(c, w, f) + [FileEnd], Decode(c, START, rest))
  {
    hide Lawful, Given, Inflate, Decode, DataFrames, Since, PendingRun, Copies, Bytes, Synced, Due, Linked;
    if w.lastToken == -1 {
      EndOfNothing(c, w, f, rest);
      AddNothing([FileEnd]);
    } else if w.lastToken == -2 {
      EndAfterLiteral(c, w, f, rest);
    } else {
      EndAfterRun(c, w, f, rest);
    }
  }

  lemma EndOfNothing(c: Codec, w: Writer, f: Frame, rest: seq<byte>)
    requires Lawful(c) && ValidWriter(w) && Linked(c, w, f) && w.lastToken == -1
    ensures var sent := SendToken(c, w, -1, []).value;
            && SendToken(c, w, -1, []).Ok? && ValidWriter(sent.writer) && sent.writer.lastToken == -1
            && Decode(c, f, sent.bytes + rest) == Prepend([FileEnd], Decode(c, START, rest))
  {
    hide Lawful, Inflate;
    var sent := SendToken(c, w, -1, []).value;
    assert sent.bytes == [END_FLAG];
    assert ([END_FLAG] + rest)[1..] == rest;
    PrependNothing(AfterFlag(c, Tailed(f), END_FLAG, rest));
  }

  lemma EndAfterLiteral(c: Codec, w: Writer, f: Frame, rest: seq<byte>)
    requires Lawful(c) && ValidWriter(w) && Linked(c, w, f) && w.lastToken == -2
    ensures SendToken(c, w, -1, []).Ok? && Holds(c, w, f)
    ensures var sent := SendToken(c, w, -1, []).value;
            && ValidWriter(sent.writer) && sent.writer.lastToken == -1
            && Decode(c, f, sent.bytes + rest) == Prepend(Waiting(c, w, f) + [FileEnd], Decode(c, START, rest))
  {
    hide Lawful, Given, Inflate, Decode, DataFrames, Since, Copies, Bytes, Synced, Due;
    var h := w.history;
    SyncGoes(c, h, f, [END_FLAG] + rest);
    var g := Fed(f, SyncSent(c, h));
    var came := Bytes(Inflate(c, f.fed, SyncSent(c, h)).value);
    var sent := SendToken(c, w, -1, []).value;
    assert sent.bytes + rest == DataFrames(SyncSent(c, h)) + ([END_FLAG] + rest);
    FlagDecodes(c, h + [Sync], g, END_FLAG, rest);
    var due := Bytes(Due(c, h + [Sync], g.fed));
    PrependTwice(due, [FileEnd], Decode(c, START, rest));
    PrependTwice(came, due + [FileEnd], Decode(c, START, rest));
    AddNothing(Bytes(Due(c, h, f.fed)));
    assert came + (due + [FileEnd]) == came + due + [FileEnd];
  }

  lemma EndAfterRun(c: Codec, w: Writer, f: Frame, rest: seq<byte>)
    requires Lawful(c) && ValidWriter(w) && Linked(c, w, f) && w.lastToken >= 0
    ensures SendToken(c, w, -1, []).Ok? && Holds(c, w, f)
    ensures var sent := SendToken(c, w, -1, []).value;
            && ValidWriter(sent.writer) && sent.writer.lastToken == -1
            && Decode(c, f, sent.bytes + rest) == Prepend(Waiting(c, w, f) + [FileEnd], Decode(c, START, rest))
  {
    hide Lawful, Given, Inflate, Decode, DataFrames, Since, PendingRun, Copies, Bytes, Synced, Due, Waiting;
    RunGoes(c, w, f, [END_FLAG] + rest);
    FlushedDue(c, w.history);
    var g := Frame(w.lastToken, false, c.deflate(w.history), false);
    assert g.fed + [] == g.fed;
    FlagDecodes(c, w.history, g, END_FLAG, rest);
    var sent := SendToken(c, w, -1, []).value;
    assert sent.bytes + rest == PendingRun(w).value + ([END_FLAG] + rest);
    PrependNothing(AfterFlag(c, g, END_FLAG, rest));
    PrependTwice(Waiting(c, w, f), [FileEnd], Decode(c, START, rest));
  }

  lemma AdvancesThen(c: Codec, w: Writer, f: Frame, a: seq<Symbol>, b: seq<Symbol>, first: Sent, second: Sent,
                     rest: seq<byte>,
                     g: Frame, h: Frame, out: seq<Symbol>, more: seq<Symbol>)
    requires Advances(c, w, f, a, first, second.bytes + rest, g, out)
    requires Advances(c, first.writer, g, b, second, rest, h, more)
    ensures Advances(c, w, f, a + b, Sent(first.bytes + second.bytes, second.writer), rest, h, out + more)
  {
    hide Decode, Linked, Holds, Due, Bytes, Copies, EndsInData, EndsInBytes;
    assert first.bytes + second.bytes + rest == first.bytes + (second.bytes + rest);
    PrependTwice(out, more, Decode(c, h, rest));
    var x, y, z := Waiting(c, w, f), Waiting(c, first.writer, g), Waiting(c, second.writer, h);
    calc {
      x + (a + b);
      (x + a) + b;
      out + y + b;
      out + (y + b);
      out + (more + z);
      out + more + z;
    }
  }

  lemma StandsStill(c: Codec, w: Writer, f: Frame, rest: seq<byte>)
    requires Lawful(c) && ValidWriter(w) && Linked(c, w, f)
    ensures Advances(c, w, f, [], Sent([], w), rest, f, [])
  {
    if w.lastToken != -1 {
      LinkedHolds(c, w, f);
    }
    hide Lawful, Linked, Decode, Due, Copies, Holds;
    assert [] + rest == rest;
    PrependNothing(Decode(c, f, rest));
    AddNothing(Waiting(c, w, f));
  }

  lemma {:induction false} LiteralAdvances(c: Codec, w: Writer, f: Frame, b: seq<byte>, rest: seq<byte>)
    returns (g: Frame, out: seq<Symbol>)
    requires Lawful(c) && ValidWriter(w) && Linked(c, w, f)
    ensures SendLiteral(c, w, b).Ok?
    ensures Advances(c, w, f, Bytes(b), SendLiteral(c, w, b).value, rest, g, out)
    decreases |b|
  {
    hide Lawful, Linked, ValidWriter, Waiting, Holds, SendToken, Decode, Bytes;
    if b == [] {
      StandsStill(c, w, f, rest);
      BytesNone();
      g, out := f, [];
    } else {
      var n := if |b| < CHUNK_SIZE then |b| else CHUNK_SIZE;
      var mid, o1 := DataPieceGoes(c, w, f, b[..n], []);
      var first := SendToken(c, w, -2, b[..n]).value;
      LinkedAfter(c, w, f, Bytes(b[..n]), first, [], mid, o1);
      var o2;
      g, o2 := LiteralAdvances(c, first.writer, mid, b[n..], rest);
      var second := SendLiteral(c, first.writer, b[n..]).value;
      mid, o1 := DataPieceGoes(c, w, f, b[..n], second.bytes + rest);
      LinkedAfter(c, w, f, Bytes(b[..n]), first, second.bytes + rest, mid, o1);
      g, o2 := LiteralAdvances(c, first.writer, mid, b[n..], rest);
      out := o1 + o2;
      assert b == b[..n] + b[n..];
      BytesAdd(b[..n], b[n..]);
      AdvancesThen(c, w, f, Bytes(b[..n]), Bytes(b[n..]), first, second, rest, mid, g, o1, o2);
    }
  }

  lemma LinkedAfter(c: Codec, w: Writer, f: Frame, said: seq<Symbol>, sent: Sent, rest: seq<byte>, g: Frame,
                    out: seq<Symbol>)
    requires Advances(c, w, f, said, sent, rest, g, out)
    ensures ValidWriter(sent.writer) && Linked(c, sent.writer, g)
  {
  }

  lemma BytesNone()
    ensures Bytes([]) == []
  {
  }

  /** What a piece says. */
  function Said(p: Piece): seq<Symbol> {
    match p
    case Literal(b) => Bytes(b)
    case Copy(i) => [CopyOf(i)]
  }

  function SaidAll(ps: seq<Piece>): seq<Symbol> {
    if ps == [] then [] else Said(ps[0]) + SaidAll(ps[1..])
  }

  function SaidFiles(files: seq<seq<Piece>>): seq<Symbol> {
    if files == [] then [] else SaidAll(files[0]) + [FileEnd] + SaidFiles(files[1..])
  }

  /** A block number the wire can carry. */
  predicate Sendable(p: Piece) {
    p.Copy? ==> p.block <= I32_MAX
  }

  predicate AllSendable(ps: seq<Piece>) {
    forall i :: 0 <= i < |ps| ==> Sendable(ps[i])
  }

  lemma PieceAdvances(c: Codec, w: Writer, f: Frame, p: Piece, rest: seq<byte>) returns (g: Frame, out: seq<Symbol>)
    requires Lawful(c) && ValidWriter(w) && Linked(c, w, f)
    ensures SendPiece(c, w, p).Ok? <==> Sendable(p)
    ensures Sendable(p) ==> Advances(c, w, f, Said(p), SendPiece(c, w, p).value, rest, g, out)
  {
    hide Lawful, Linked, ValidWriter, Advances, SendToken, SendLiteral, Bytes;
    g, out := f, [];
    match p {
      case Literal(b) =>
        g, out := LiteralAdvances(c, w, f, b, rest);
      case Copy(i) =>
        if i <= I32_MAX {
          g, out := CopyGoes(c, w, f, i, rest);
        }
    }
  }

  lemma {:induction false} PiecesAdvance(c: Codec, w: Writer, f: Frame, ps: seq<Piece>, rest: seq<byte>)
    returns (g: Frame, out: seq<Symbol>)
    requires Lawful(c) && ValidWriter(w) && Linked(c, w, f)
    ensures SendPieces(c, w, ps).Ok? <==> AllSendable(ps)
    ensures AllSendable(ps) ==> Advances(c, w, f, SaidAll(ps), SendPieces(c, w, ps).value, rest, g, out)
    decreases |ps|
  {
    hide Lawful, Linked, ValidWriter, Advances, SendPiece, Said, Sendable;
    g, out := f, [];
    if ps == [] {
      StandsStill(c, w, f, rest);
    } else {
      assert AllSendable(ps) <==> Sendable(ps[0]) && AllSendable(ps[1..]) by {
        assert ps == [ps[0]] + ps[1..];
      }
      var mid, o1 := PieceAdvances(c, w, f, ps[0], []);
      if Sendable(ps[0]) {
        var first := SendPiece(c, w, ps[0]).value;
        LinkedAfter(c, w, f, Said(ps[0]), first, [], mid, o1);
        var o2;
        g, o2 := PiecesAdvance(c, first.writer, mid, ps[1..], rest);
        if AllSendable(ps[1..]) {
          var second := SendPieces(c, first.writer, ps[1..]).value;
          mid, o1 := PieceAdvances(c, w, f, ps[0], second.bytes + rest);
          LinkedAfter(c, w, f, Said(ps[0]), first, second.bytes + rest, mid, o1);
          g, o2 := PiecesAdvance(c, first.writer, mid, ps[1..], rest);
          out := o1 + o2;
          AdvancesThen(c, w, f, Said(ps[0]), SaidAll(ps[1..]), first, second, rest, mid, g, o1, o2);
        }
      }
    }
  }

  /** A whole file, from a writer between files. */
  lemma FileDecodes(c: Codec, w: Writer, ps: seq<Piece>, rest: seq<byte>)
    requires Lawful(c) && ValidWriter(w) && w.lastToken == -1
    ensures SendFile(c, w, ps).Ok? <==> AllSendable(ps)
    ensures AllSendable(ps) ==>
              var sent := SendFile(c, w, ps).value;
              && ValidWriter(sent.writer) && sent.writer.lastToken == -1
              && Decode(c, START, sent.bytes + rest) == Prepend(SaidAll(ps) + [FileEnd], Decode(c, START, rest))
  {
    BetweenFiles(c, w);
    hide Lawful, Linked, ValidWriter, SendPieces, SendToken, SaidAll, AllSendable, Decode, Waiting, Holds, Advances,
      Prepend;
    var g, out := PiecesAdvance(c, w, START, ps, []);
    if AllSendable(ps) {
      var pieces := SendPieces(c, w, ps).value;
      LinkedAfter(c, w, START, SaidAll(ps), pieces, [], g, out);
      EndGoes(c, pieces.writer, g, rest);
      var end := SendToken(c, pieces.writer, -1, []).value;
      g, out := PiecesAdvance(c, w, START, ps, end.bytes + rest);
      LinkedAfter(c, w, START, SaidAll(ps), pieces, end.bytes + rest, g, out);
      EndGoes(c, pieces.writer, g, rest);
      FileJoins(c, w, SaidAll(ps), pieces, end, rest, g, out);
    }
  }

  lemma FileJoins(c: Codec, w: Writer, said: seq<Symbol>, pieces: Sent, end: Sent, rest: seq<byte>, g: Frame,
                  out: seq<Symbol>)
    requires Advances(c, w, START, said, pieces, end.bytes + rest, g, out)
    requires w.lastToken == -1 && InRange(pieces.writer)
             && (pieces.writer.lastToken != -1 ==> Holds(c, pieces.writer, g))
    requires Decode(c, g, end.bytes + rest) == Prepend(Waiting(c, pieces.writer, g) + [FileEnd], Decode(c, START, rest))
    ensures Decode(c, START, pieces.bytes + end.bytes + rest) == Prepend(said + [FileEnd], Decode(c, START, rest))
  {
    hide Decode, Linked, Due, Bytes, Copies, Waiting, EndsInData, EndsInBytes;
    BetweenFiles(c, w);
    var left := Waiting(c, pieces.writer, g);
    PrependTwice(out, left + [FileEnd], Decode(c, START, rest));
    assert pieces.bytes + end.bytes + rest == pieces.bytes + (end.bytes + rest);
    AddNothing(said);
    assert out + (left + [FileEnd]) == out + left + [FileEnd];
  }

  lemma BetweenFiles(c: Codec, w: Writer)
    requires ValidWriter(w) && w.lastToken == -1
    ensures Linked(c, w, START) && Waiting(c, w, START) == []
  {
  }

  predicate AllFilesSendable(files: seq<seq<Piece>>) {
    forall i :: 0 <= i < |files| ==> AllSendable(files[i])
  }

  lemma {:induction false} FilesDecode(c: Codec, w: Writer, files: seq<seq<Piece>>)
    requires Lawful(c) && ValidWriter(w) && w.lastToken == -1
    ensures SendFiles(c, w, files).Ok? <==> AllFilesSendable(files)
    ensures AllFilesSendable(files) ==> Decode(c, START, SendFiles(c, w, files).value.bytes) == Ok(SaidFiles(files))
    decreases |files|
  {
    hide Lawful, ValidWriter, SendFile, AllSendable, SaidAll, AfterFlag;
    if files != [] {
      assert AllFilesSendable(files) <==> AllSendable(files[0]) && AllFilesSendable(files[1..]) by {
        assert files == [files[0]] + files[1..];
      }
      FileDecodes(c, w, files[0], []);
      if AllSendable(files[0]) {
        var first := SendFile(c, w, files[0]).value;
        FilesDecode(c, first.writer, files[1..]);
        if AllFilesSendable(files[1..]) {
          FileDecodes(c, w, files[0], SendFiles(c, first.writer, files[1..]).value.bytes);
        }
      }
    }
  }

  /**
   * The token stream round trip. Writing succeeds exactly when every block number fits the wire; then the reader
   * takes in the whole stream, and its tokens say what was written: each file's literal bytes and block copies in
   * their places, and its end.
   */
  lemma TokenStreamRoundTrip(c: Codec, files: seq<seq<Piece>>)
    requires Lawful(c)
    ensures SendFiles(c, NEW_WRITER, files).Ok? <==> AllFilesSendable(files)
    ensures AllFilesSendable(files) ==>
              var stream := SendFiles(c, NEW_WRITER, files).value.bytes;
              && Tokens(c, NEW_READER, stream).Ok?
              && Expand(Tokens(c, NEW_READER, stream).value) == SaidFiles(files)
  {
    hide Lawful, SendFiles, AllFilesSendable, Decode, Tokens;
    FilesDecode(c, NEW_WRITER, files);
    if AllFilesSendable(files) {
      TokensSay(c, NEW_READER, true, SendFiles(c, NEW_WRITER, files).value.bytes);
    }
  }
}
