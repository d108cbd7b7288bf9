/** Byte streams, results and little-endian numbers: the ground the wire codecs stand on. */
module Wire {
  type byte = x: int | 0 <= x < 0x100
  type u32 = x: int | 0 <= x < 0x1_0000_0000
  type u64 = x: int | 0 <= x < 0x1_0000_0000_0000_0000
  type i32 = x: int | -0x8000_0000 <= x < 0x8000_0000
  type i64 = x: int | -0x8000_0000_0000_0000 <= x < 0x8000_0000_0000_0000

  const I32_MAX := 0x7fff_ffff
  const I64_MAX := 0x7fff_ffff_ffff_ffff

  datatype Option<+T> = None | Some(value: T) {
    function GetOr(default: T): T {
      match this
      case Some(v) => v
      case None => default
    }
  }

  /** Every way a reader or a writer of the protocol can fail. */
  datatype Error =
    | UnexpectedEof
    | InvalidData
    | InvalidInput
    | InvalidUtf8
    | ArithmeticOverflow
    | BackslashInPath
    | UnsafePath
    | PathTooLong
    | UnsupportedMode
    | MissingChecksum
    | InvalidXattrName
    | XattrValueTooLarge

  datatype Result<+T> = Ok(value: T) | Err(error: Error) {
    predicate IsFailure() {
      Err?
    }

    function PropagateFailure<U>(): Result<U>
      requires Err?
    {
      Err(error)
    }

    function Extract(): T
      requires Ok?
    {
      value
    }
  }

  /** What a pure reader returns: the value and the bytes it left unread. */
  type Parsed<+T> = Result<(T, seq<byte>)>

  function Take(s: seq<byte>, n: nat): (p: Parsed<seq<byte>>)
    ensures p.Ok? ==> |p.value.0| == n && |p.value.1| == |s| - n
  {
    if |s| < n then Err(UnexpectedEof) else Ok((s[..n], s[n..]))
  }

  function ReadU8(s: seq<byte>): (p: Parsed<byte>)
    ensures p.Ok? ==> |p.value.1| == |s| - 1
  {
    if s == [] then Err(UnexpectedEof) else Ok((s[0], s[1..]))
  }

  // Reading back `a` from in front of anything.
  lemma TakeAppended(a: seq<byte>, rest: seq<byte>)
    ensures Take(a + rest, |a|) == Ok((a, rest))
  {
    assert (a + rest)[..|a|] == a;
    assert (a + rest)[|a|..] == rest;
  }

  function Pow256(n: nat): (p: nat)
    ensures p > 0
  {
    if n == 0 then 1 else 0x100 * Pow256(n - 1)
  }

  lemma Pow256Values()
    ensures Pow256(1) == 0x100 && Pow256(2) == 0x1_0000 && Pow256(3) == 0x100_0000
    ensures Pow256(4) == 0x1_0000_0000 && Pow256(5) == 0x100_0000_0000 && Pow256(6) == 0x1_0000_0000_0000
    ensures Pow256(7) == 0x100_0000_0000_0000 && Pow256(8) == 0x1_0000_0000_0000_0000
  {
    assert Pow256(4) == 0x1_0000_0000;
    assert Pow256(5) == 0x100 * Pow256(4);
    assert Pow256(6) == 0x100 * Pow256(5);
    assert Pow256(7) == 0x100 * Pow256(6);
    assert Pow256(8) == 0x100 * Pow256(7);
  }

  /** The `n` low bytes of `v`, least significant first. */
  function Le(v: nat, n: nat): (b: seq<byte>)
    ensures |b| == n
  {
    if n == 0 then [] else [v % 0x100] + Le(v / 0x100, n - 1)
  }

  function FromLe(b: seq<byte>): nat {
    if b == [] then 0 else b[0] + 0x100 * FromLe(b[1..])
  }

  lemma {:induction false} FromLeLe(v: nat, n: nat)
    requires v < Pow256(n)
    ensures FromLe(Le(v, n)) == v
  {
    if n > 0 {
      FromLeLe(v / 0x100, n - 1);
    }
  }

  lemma {:induction false} FromLeBound(b: seq<byte>)
    ensures FromLe(b) < Pow256(|b|)
  {
    if b != [] {
      FromLeBound(b[1..]);
    }
  }

  lemma {:induction false} LeFromLe(b: seq<byte>)
    ensures Le(FromLe(b), |b|) == b
  {
    if b != [] {
      LeFromLe(b[1..]);
      assert FromLe(b) % 0x100 == b[0] && FromLe(b) / 0x100 == FromLe(b[1..]);
      assert b == [b[0]] + b[1..];
    }
  }

  lemma {:induction false} FromLeSnoc(b: seq<byte>, top: byte)
    ensures FromLe(b + [top]) == FromLe(b) + Pow256(|b|) * top
  {
    if b == [] {
      assert b + [top] == [top];
    } else {
      FromLeSnoc(b[1..], top);
      assert (b + [top])[1..] == b[1..] + [top];
    }
  }

  // Taking one more byte of a number appends its next digit.
  lemma {:induction false} LeSnoc(v: nat, n: nat)
    ensures Le(v, n + 1) == Le(v, n) + [v / Pow256(n) % 0x100]
  {
    if n > 0 {
      LeSnoc(v / 0x100, n - 1);
      DivDiv(v, Pow256(n - 1));
    }
  }

  lemma DivDiv(v: nat, b: nat)
    requires b > 0
    ensures v / 0x100 / b == v / (0x100 * b)
  {
    var w := v / 0x100;
    var q, r := w / b, w % b;
    assert w == b * q + r;
    assert (0x100 * b) * q == 0x100 * (b * q);
    DivUnique(v, 0x100 * b, q, 0x100 * r + v % 0x100);
  }

  lemma DivUnique(v: int, d: int, q: int, r: int)
    requires d > 0 && v == d * q + r && 0 <= r < d
    ensures v / d == q && v % d == r
  {
    var k := v / d - q;
    assert d * k == r - v % d;
    assert k == 0 by {
      if k > 0 {
        Scale(d, k);
      } else if k < 0 {
        Scale(d, -k);
      }
    }
  }

  lemma Scale(d: int, k: int)
    requires d > 0 && k > 0
    ensures d * k >= d
  {
    assert d * k == d * (k - 1) + d;
    assert d * (k - 1) >= 0;
  }

  /** Two's complement at 32 and 64 bits. */
  function Unsigned32(v: i32): u32 {
    if v < 0 then v + 0x1_0000_0000 else v
  }

  function Signed32(v: u32): i32 {
    if v > I32_MAX then v - 0x1_0000_0000 else v
  }

  function Unsigned64(v: i64): u64 {
    if v < 0 then v + 0x1_0000_0000_0000_0000 else v
  }

  function Signed64(v: u64): i64 {
    if v > I64_MAX then v - 0x1_0000_0000_0000_0000 else v
  }

  function ReadU32Le(s: seq<byte>): (p: Parsed<u32>)
    ensures p.Ok? ==> |p.value.1| == |s| - 4
  {
    var (b, s1) :- Take(s, 4);
    FromLeBound(b);
    Pow256Values();
    Ok((FromLe(b), s1))
  }

  function ReadI32Le(s: seq<byte>): Parsed<i32> {
    var (v, s1) :- ReadU32Le(s);
    Ok((Signed32(v), s1))
  }

  function ReadI64Le(s: seq<byte>): Parsed<i64> {
    var (b, s1) :- Take(s, 8);
    FromLeBound(b);
    Pow256Values();
    Ok((Signed64(FromLe(b)), s1))
  }

  lemma U32RoundTrip(v: u32, rest: seq<byte>)
    ensures ReadU32Le(Le(v, 4) + rest) == Ok((v, rest))
  {
    Pow256Values();
    FromLeLe(v, 4);
    TakeAppended(Le(v, 4), rest);
  }

  lemma I32RoundTrip(v: i32, rest: seq<byte>)
    ensures ReadI32Le(Le(Unsigned32(v), 4) + rest) == Ok((v, rest))
  {
    U32RoundTrip(Unsigned32(v), rest);
  }

  lemma I64RoundTrip(v: i64, rest: seq<byte>)
    ensures ReadI64Le(Le(Unsigned64(v), 8) + rest) == Ok((v, rest))
  {
    Pow256Values();
    FromLeLe(Unsigned64(v), 8);
    TakeAppended(Le(Unsigned64(v), 8), rest);
  }

  /** A method's outcome agrees with a pure reader run on the bytes it started from. */
  ghost predicate Reads<T>(r: Result<T>, after: seq<byte>, spec: Parsed<T>) {
    match spec
    case Ok((v, s)) => r == Ok(v) && after == s
    case Err(e) => r == Err(e)
  }

  /** A method agrees with an encoder: the bytes are appended, or the error is returned with nothing taken back. */
  ghost predicate Writes(r: Result<()>, before: seq<byte>, after: seq<byte>, spec: Result<seq<byte>>) {
    match spec
    case Ok(b) => r == Ok(()) && after == before + b
    case Err(e) => r == Err(e) && before <= after
  }

  /** The byte source a reader draws from. */
  class Source {
    var rest: seq<byte>

    constructor (bytes: seq<byte>)
      ensures rest == bytes
    {
      rest := bytes;
    }

    method ReadExact(n: nat) returns (r: Result<seq<byte>>)
      modifies this
      ensures Reads(r, rest, Take(old(rest), n))
    {
      if |rest| < n {
        return Err(UnexpectedEof);
      }
      r := Ok(rest[..n]);
      rest := rest[n..];
    }

    method ReadByte() returns (r: Result<byte>)
      modifies this
      ensures Reads(r, rest, ReadU8(old(rest)))
    {
      var b :- ReadExact(1);
      r := Ok(b[0]);
    }

    method ReadU32() returns (r: Result<u32>)
      modifies this
      ensures Reads(r, rest, ReadU32Le(old(rest)))
    {
      var b :- ReadExact(4);
      FromLeBound(b);
      Pow256Values();
      r := Ok(FromLe(b));
    }

    method ReadI32() returns (r: Result<i32>)
      modifies this
      ensures Reads(r, rest, ReadI32Le(old(rest)))
    {
      var b :- ReadExact(4);
      FromLeBound(b);
      Pow256Values();
      r := Ok(Signed32(FromLe(b)));
    }
  }

  /** The byte sink a writer appends to. */
  class Sink {
    var out: seq<byte>

    constructor ()
      ensures out == []
    {
      out := [];
    }

    method WriteAll(bytes: seq<byte>)
      modifies this
      ensures out == old(out) + bytes
    {
      out := out + bytes;
    }
  }
}
