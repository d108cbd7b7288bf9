/** The weak checksum: two 16-bit sums over signed bytes that can be slid along a file. */
module RollSum {
  import opened Wire

  const MODULUS: nat := 65_536

  function SignedByte(b: byte): int {
    var v: int := b;
    if v >= 0x80 then v - 0x100 else v
  }

  /** Plain sums, before they are cut down to 16 bits. */
  function SumA(block: seq<byte>): int {
    if block == [] then 0 else SumA(block[..|block| - 1]) + SignedByte(block[|block| - 1])
  }

  function SumB(block: seq<byte>): int {
    if block == [] then 0 else SumB(block[..|block| - 1]) + SumA(block)
  }

  datatype Sums = Sums(a: nat, b: nat, len: nat)

  function FromBlock(block: seq<byte>): Sums {
    Sums(SumA(block) % MODULUS, SumB(block) % MODULUS, |block|)
  }

  function Rolled(s: Sums, outgoing: byte, incoming: byte): Sums {
    var a := (s.a - SignedByte(outgoing) + SignedByte(incoming)) % MODULUS;
    Sums(a, (s.b - s.len * SignedByte(outgoing) + a) % MODULUS, s.len)
  }

  function Digest(s: Sums): nat {
    s.b * MODULUS + s.a
  }

  function Weak(block: seq<byte>): nat {
    Digest(FromBlock(block))
  }

  lemma {:induction false} FrontOut(x: byte, m: seq<byte>)
    ensures SumA([x] + m) == SignedByte(x) + SumA(m)
    ensures SumB([x] + m) == (|m| + 1) * SignedByte(x) + SumB(m)
    decreases |m|
  {
    if m == [] {
      assert [x] + m == [x] && [x][..0] == [];
    } else {
      FrontOut(x, m[..|m| - 1]);
      assert ([x] + m)[..|m|] == [x] + m[..|m| - 1];
      assert (|m| + 1) * SignedByte(x) == |m| * SignedByte(x) + SignedByte(x);
    }
  }

  lemma BackIn(m: seq<byte>, y: byte)
    ensures SumA(m + [y]) == SumA(m) + SignedByte(y)
    ensures SumB(m + [y]) == SumB(m) + SumA(m + [y])
  {
    assert (m + [y])[..|m|] == m;
  }

  lemma ModAdd(x: int, y: int)
    ensures (x % MODULUS + y) % MODULUS == (x + y) % MODULUS
  {
    var q := x / MODULUS;
    assert x == q * MODULUS + x % MODULUS;
    ModShift(x % MODULUS + y, q);
  }

  lemma {:induction false} ModShift(x: int, q: int)
    ensures (x + q * MODULUS) % MODULUS == x % MODULUS
  {
    var k, r := x / MODULUS, x % MODULUS;
    DivUnique(x + q * MODULUS, MODULUS, k + q, r);
  }

  /** Sliding the window by one byte gives what computing it afresh gives. */
  lemma RollOnce(x: byte, m: seq<byte>, y: byte)
    ensures Rolled(FromBlock([x] + m), x, y) == FromBlock(m + [y])
  {
    hide SumA, SumB;
    var before, sx, sy := [x] + m, SignedByte(x), SignedByte(y);
    var product := |before| * sx;
    FrontOut(x, m);
    BackIn(m, y);
    assert |before| == |m| + 1;
    CutSums(SumA(before), SumB(before), product, sx, sy);
  }

  // Cutting down to 16 bits before or after makes no difference.
  lemma CutSums(a: int, b: int, product: int, sx: int, sy: int)
    ensures (a % MODULUS - sx + sy) % MODULUS == (a - sx + sy) % MODULUS
    ensures (b % MODULUS - product + (a - sx + sy) % MODULUS) % MODULUS == (b - product + (a - sx + sy)) % MODULUS
  {
    var after := a - sx + sy;
    ModAdd(a, sy - sx);
    ModAdd(b, after % MODULUS - product);
    ModAdd(after, b - product);
  }

  /** As often as the data allow. */
  function RolledBy(s: Sums, data: seq<byte>, n: nat, k: nat): Sums
    requires n + k <= |data|
  {
    if k == 0 then s
    else Rolled(RolledBy(s, data, n, k - 1), data[k - 1], data[n + k - 1])
  }

  lemma {:induction false} RollingIsRecomputing(data: seq<byte>, n: nat, k: nat)
    requires n > 0 && n + k <= |data|
    ensures RolledBy(FromBlock(data[..n]), data, n, k) == FromBlock(data[k..k + n])
  {
    if k > 0 {
      RollingIsRecomputing(data, n, k - 1);
      var m := data[k..k + n - 1];
      assert data[k - 1..k - 1 + n] == [data[k - 1]] + m;
      assert data[k..k + n] == m + [data[k + n - 1]];
      RollOnce(data[k - 1], m, data[k + n - 1]);
    }
  }

  class RollingChecksum {
    var a: nat
    var b: nat
    var len: nat

    function Now(): Sums
      reads this
    {
      Sums(a, b, len)
    }

    constructor (block: seq<byte>)
      ensures Now() == FromBlock(block)
    {
      var x, y := 0, 0;
      var i := 0;
      while i < |block|
        invariant 0 <= i <= |block| && x == SumA(block[..i]) % MODULUS && y == SumB(block[..i]) % MODULUS
      {
        assert block[..i + 1][..i] == block[..i];
        ModAdd(SumA(block[..i]), SignedByte(block[i]));
        x := (x + SignedByte(block[i])) % MODULUS;
        ModAdd(SumB(block[..i]), x);
        ModAdd(SumA(block[..i + 1]), SumB(block[..i]));
        y := (y + x) % MODULUS;
        i := i + 1;
      }
      assert block[..i] == block;
      a, b, len := x, y, |block|;
    }

    method Roll(outgoing: byte, incoming: byte)
      requires len > 0
      modifies this
      ensures Now() == Rolled(old(Now()), outgoing, incoming)
    {
      var x := (a - SignedByte(outgoing) + SignedByte(incoming)) % MODULUS;
      b := (b - len * SignedByte(outgoing) + x) % MODULUS;
      a := x;
    }
  }

  method RollingChecksumOf(block: seq<byte>) returns (weak: nat)
    ensures weak == Weak(block)
  {
    var sums := new RollingChecksum(block);
    weak := sums.b * MODULUS + sums.a;
  }
}
