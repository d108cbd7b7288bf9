/** The compressed token stream: what the writer sends for literals and block copies, and how the reader takes it. */
module TokenSpec {
  import opened Wire

  const END_FLAG: byte := 0
  const TOKEN_LONG: byte := 0x20
  const TOKENRUN_LONG: byte := 0x21
  const DEFLATED_DATA: byte := 0x40
  const TOKEN_REL: byte := 0x80
  const TOKENRUN_REL: byte := 0xc0
  const MAX_DATA_COUNT: nat := 16_383
  const CHUNK_SIZE: nat := 32 * 1024
  const SYNC_TAIL: seq<byte> := [0, 0, 0xff, 0xff]

  /** What a compressor has been given since its last reset. */
  datatype Op = Data(bytes: seq<byte>) | Sync

  /**
   * Deflate and inflate, seen from outside: all the bytes a compressor has put out after a history, and all the
   * bytes a decompressor has put out after an input, if it accepts it.
   */
  datatype Codec = Codec(deflate: seq<Op> -> seq<byte>, inflate: seq<byte> -> Option<seq<byte>>)

  function Given(h: seq<Op>): seq<byte> {
    if h == [] then []
    else Given(h[..|h| - 1]) + match h[|h| - 1] case Data(b) => b case Sync => []
  }

  predicate EndsInData(h: seq<Op>) {
    h != [] && h[|h| - 1].Data?
  }

  /** The last thing put in was some bytes. */
  predicate EndsInBytes(h: seq<Op>) {
    EndsInData(h) && h[|h| - 1].bytes != []
  }

  /** The history up to its last sync flush. */
  function Synced(h: seq<Op>): seq<Op> {
    if EndsInData(h) then Synced(h[..|h| - 1]) else h
  }

  /** Output only ever grows, and a sync flush after new bytes ends it in the tail, with something new before that. */
  ghost predicate Deflates(c: Codec) {
    && c.deflate([]) == []
    && (forall h, op :: c.deflate(h) <= c.deflate(h + [op]))
    && (forall h | EndsInBytes(h) :: Flushes(c.deflate(h), c.deflate(h + [Sync]), c.deflate(Synced(h))))
  }

  ghost predicate Flushes(before: seq<byte>, after: seq<byte>, last: seq<byte>) {
    && |before| + |SYNC_TAIL| <= |after| && after[|after| - |SYNC_TAIL|..] == SYNC_TAIL
    && |last| + |SYNC_TAIL| < |after|
  }

  /** Inflating any part of the output is accepted and yields a part of what was given, all of it at a sync flush. */
  ghost predicate Inflates(c: Codec) {
    && (forall h, p, q | p <= q && q <= c.deflate(h) :: Grows(c.inflate(p), c.inflate(q)))
    && (forall h | !EndsInData(h) :: c.inflate(c.deflate(h)) == Some(Given(h)))
  }

  ghost predicate Grows(a: Option<seq<byte>>, b: Option<seq<byte>>) {
    a.Some? && b.Some? && a.value <= b.value
  }

  ghost predicate Lawful(c: Codec) {
    Deflates(c) && Inflates(c)
  }

  // The writer.

  datatype Writer = Writer(history: seq<Op>, lastToken: int, runStart: int, lastRunEnd: int, flushPending: bool)

  const NEW_WRITER := Writer([], -1, 0, 0, false)

  /** Chunks of at most 16383 bytes, each behind its two-byte header. */
  function DataFrames(b: seq<byte>): seq<byte>
    decreases |b|
  {
    if b == [] then []
    else
      var n := if |b| < MAX_DATA_COUNT then |b| else MAX_DATA_COUNT;
      [DEFLATED_DATA + n / 0x100, n % 0x100] + b[..n] + DataFrames(b[n..])
  }

  function Since(c: Codec, h: seq<Op>, op: Op): seq<byte> {
    var before, after := |c.deflate(h)|, c.deflate(h + [op]);
    if before <= |after| then after[before..] else []
  }

  /** The run of copies waiting: relative to the last run's end if that is near enough, else by number. */
  function PendingRun(w: Writer): Result<seq<byte>> {
    var relative, extra := w.runStart - w.lastRunEnd, w.lastToken - w.runStart;
    if !(-0x8000_0000 <= relative <= I32_MAX) || !(-0x8000_0000 <= extra <= 0xffff) then Err(InvalidData)
    else
      var count: seq<byte> := if extra == 0 then [] else [extra % 0x100, extra / 0x100 % 0x100];
      if 0 <= relative <= 63 then
        Ok([(if extra == 0 then TOKEN_REL else TOKENRUN_REL) + relative] + count)
      else if !(-0x8000_0000 <= w.runStart <= I32_MAX) then Err(InvalidData)
      else Ok([if extra == 0 then TOKEN_LONG else TOKENRUN_LONG] + Le(Unsigned32(w.runStart), 4) + count)
  }

  /** Does this token end the run that is waiting? */
  predicate EndsRun(w: Writer, token: int, data: seq<byte>) {
    || data != []
    || w.lastToken == I32_MAX || w.lastToken + 1 != token
    || w.runStart + 65_536 > I32_MAX || token >= w.runStart + 65_536
  }

  datatype Sent = Sent(bytes: seq<byte>, writer: Writer)

  // Before the token itself: a new file, the end of literals, or the end of a run.
  function Settle(w: Writer, token: int, data: seq<byte>): Result<Sent> {
    if w.lastToken == -1 then Ok(Sent([], Writer([], -1, token, 0, false)))
    else if w.lastToken == -2 then Ok(Sent([], w.(runStart := token)))
    else if EndsRun(w, token, data) then
      var run :- PendingRun(w);
      Ok(Sent(run, w.(lastRunEnd := w.lastToken, runStart := token)))
    else Ok(Sent([], w))
  }

  function Compress(c: Codec, w: Writer, token: int, data: seq<byte>): Result<Sent> {
    if data != [] then
      Ok(Sent(DataFrames(Since(c, w.history, Data(data))),
              w.(history := w.history + [Data(data)], flushPending := true)))
    else if w.flushPending && token != -2 then
      var out := Since(c, w.history, Sync);
      if |out| < |SYNC_TAIL| || out[|out| - |SYNC_TAIL|..] != SYNC_TAIL then Err(InvalidData)
      else Ok(Sent(DataFrames(out[..|out| - |SYNC_TAIL|]), w.(history := w.history + [Sync], flushPending := false)))
    else Ok(Sent([], w))
  }

  function SendToken(c: Codec, w: Writer, token: int, data: seq<byte>): Result<Sent> {
    var first :- Settle(w, token, data);
    var second :- Compress(c, first.writer.(lastToken := token), token, data);
    Ok(Sent(first.bytes + second.bytes + if token == -1 then [END_FLAG] else [], second.writer))
  }

  function SendLiteral(c: Codec, w: Writer, literal: seq<byte>): Result<Sent>
    decreases |literal|
  {
    if literal == [] then Ok(Sent([], w))
    else
      var n := if |literal| < CHUNK_SIZE then |literal| else CHUNK_SIZE;
      var first :- SendToken(c, w, -2, literal[..n]);
      var rest :- SendLiteral(c, first.writer, literal[n..]);
      Ok(Sent(first.bytes + rest.bytes, rest.writer))
  }

  datatype Piece = Literal(bytes: seq<byte>) | Copy(block: nat)

  function SendPiece(c: Codec, w: Writer, p: Piece): Result<Sent> {
    match p
    case Literal(b) => SendLiteral(c, w, b)
    case Copy(i) => if i > I32_MAX then Err(InvalidInput) else SendToken(c, w, i, [])
  }

  function SendPieces(c: Codec, w: Writer, ps: seq<Piece>): Result<Sent>
    decreases |ps|
  {
    if ps == [] then Ok(Sent([], w))
    else
      var first :- SendPiece(c, w, ps[0]);
      var rest :- SendPieces(c, first.writer, ps[1..]);
      Ok(Sent(first.bytes + rest.bytes, rest.writer))
  }

  function SendFile(c: Codec, w: Writer, ps: seq<Piece>): Result<Sent> {
    var pieces :- SendPieces(c, w, ps);
    var end :- SendToken(c, pieces.writer, -1, []);
    Ok(Sent(pieces.bytes + end.bytes, end.writer))
  }

  function SendFiles(c: Codec, w: Writer, files: seq<seq<Piece>>): Result<Sent>
    decreases |files|
  {
    if files == [] then Ok(Sent([], w))
    else
      var first :- SendFile(c, w, files[0]);
      var rest :- SendFiles(c, first.writer, files[1..]);
      Ok(Sent(first.bytes + rest.bytes, rest.writer))
  }

  // The reader.

  datatype Token = LiteralToken(bytes: seq<byte>) | CopyToken(block: nat) | End

  datatype Reader = Reader(rxToken: int, rxRun: nat, needsTail: bool, savedFlag: Option<byte>, fed: seq<byte>)

  const NEW_READER := Reader(0, 0, false, None, [])

  /** What feeding `more` to the decompressor brings out. */
  function Inflate(c: Codec, fed: seq<byte>, more: seq<byte>): Result<seq<byte>> {
    var before, after := c.inflate(fed), c.inflate(fed + more);
    if before.None? || after.None? || |before.value| > |after.value| then Err(InvalidData)
    else Ok(after.value[|before.value|..])
  }

  datatype Received = Received(token: Token, reader: Reader, rest: seq<byte>)

  function CopyAt(r: Reader, rest: seq<byte>): Result<Received> {
    if r.rxToken < 0 then Err(InvalidData) else Ok(Received(CopyToken(r.rxToken), r, rest))
  }

  function RunCount(s: seq<byte>, counted: bool): Parsed<nat> {
    if !counted then Ok((0, s))
    else
      var (lo, s1) :- ReadU8(s);
      var (hi, s2) :- ReadU8(s1);
      var low: int, high: int := lo, hi;
      Ok((low + 0x100 * high, s2))
  }

  /** A flag that is neither data nor the end: the first copy of a run. */
  function NextRun(r: Reader, flag: byte, s: seq<byte>): (p: Result<Received>)
    ensures p.Ok? ==>
              |p.value.rest| <= |s| && p.value.reader.savedFlag == r.savedFlag
                && p.value.reader.needsTail == r.needsTail
  {
    if flag >= TOKEN_REL then
      var near: int := flag % 0x40;
      if r.rxToken + near > I32_MAX then Err(InvalidData)
      else
        var (count, s1) :- RunCount(s, flag / 0x40 % 2 == 1);
        CopyAt(r.(rxToken := r.rxToken + near, rxRun := if flag / 0x40 % 2 == 1 then count else r.rxRun), s1)
    else
      var (token, s1) :- ReadI32Le(s);
      if token < 0 then Err(InvalidData)
      else
        var (count, s2) :- RunCount(s1, flag % 2 == 1);
        CopyAt(r.(rxToken := token, rxRun := if flag % 2 == 1 then count else r.rxRun), s2)
  }

  function ReadFlag(r: Reader, s: seq<byte>): Parsed<byte> {
    match r.savedFlag
    case Some(f) => Ok((f, s))
    case None => ReadU8(s)
  }

  /** A data frame, its flag read: the low byte of the length, then the bytes. */
  function ReadData(flag: byte, s: seq<byte>): (p: Parsed<seq<byte>>)
    ensures p.Ok? ==> |p.value.1| < |s|
  {
    var (low, s1) :- ReadU8(s);
    var top: int, bottom: int := flag % 0x40, low;
    Take(s1, 0x100 * top + bottom)
  }

  predicate IsData(flag: byte) {
    flag / 0x40 == 1
  }

  function NextToken(c: Codec, r: Reader, s: seq<byte>): (p: Result<Received>)
    ensures p.Ok? ==> |p.value.rest| <= |s|
    decreases |s| + (if r.savedFlag.Some? then 1 else 0)
  {
    if r.rxRun > 0 then
      if r.rxToken >= I32_MAX then Err(InvalidData)
      else CopyAt(r.(rxToken := r.rxToken + 1, rxRun := r.rxRun - 1), s)
    else
      var (flag, s1) :- ReadFlag(r, s);
      var r1 := r.(savedFlag := None);
      if IsData(flag) then
        var (data, s3) :- ReadData(flag, s1);
        var literal :- Inflate(c, r.fed, data);
        var r2 := r1.(fed := r.fed + data, needsTail := true);
        if literal != [] then Ok(Received(LiteralToken(literal), r2, s3)) else NextToken(c, r2, s3)
      else
        var tail :- if r.needsTail then Inflate(c, r.fed, SYNC_TAIL) else Ok([]);
        var r2 := if r.needsTail then r1.(fed := r.fed + SYNC_TAIL, needsTail := false) else r1;
        if tail != [] then Ok(Received(LiteralToken(tail), r2.(savedFlag := Some(flag)), s1))
        else if flag == END_FLAG then Ok(Received(End, NEW_READER, s1))
        else NextRun(r2, flag, s1)
  }
}
