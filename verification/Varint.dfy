/** The variable-length integers of the protocol: one bit-packed prefix code, in two widths. */
module Varint {
  import opened Wire

  /** 1 << k for a byte-sized shift. */
  function Bit(k: nat): (b: nat)
    requires k <= 8
    ensures b > 0
  {
    if k == 0 then 1 else if k == 1 then 2 else if k == 2 then 4 else if k == 3 then 8 else if k == 4 then 16
    else if k == 5 then 32 else if k == 6 then 64 else if k == 7 then 128 else 256
  }

  /** How many more bytes a first byte announces. */
  function ExtraBytes(first: byte): nat {
    if first < 0x80 then 0
    else if first < 0xc0 then 1
    else if first < 0xe0 then 2
    else if first < 0xf0 then 3
    else if first < 0xf8 then 4
    else if first < 0xfc then 5
    else 6
  }

  /** The fewest bytes, at least `min`, that hold `v`. */
  function SignificantBytes(v: u64, min: nat): (n: nat)
    requires min <= 8
    ensures min <= n <= 8 && v < Pow256(n)
    ensures n > min ==> v >= Pow256(n - 1)
    decreases 8 - min
  {
    Pow256Values();
    if v < Pow256(min) then min else SignificantBytes(v, min + 1)
  }

  /** The highest of the `n` bytes of `v`. */
  function Top(v: nat, n: nat): (t: byte)
    requires n > 0 && v < Pow256(n)
    ensures t == v / Pow256(n - 1)
  {
    TopByte(v, n);
    v / Pow256(n - 1)
  }

  /**
   * The code word of `v` with at least `min` bytes. The writer shifts by `7 - count + min`, computed in
   * an unsigned type, so a value that needs all eight bytes overflows the subtraction.
   */
  function Encode(v: u64, min: nat): Result<seq<byte>>
    requires 1 <= min <= 8
  {
    var count := SignificantBytes(v, min);
    if count > 7 then Err(ArithmeticOverflow)
    else
      var bit := Bit(7 - count + min);
      var top := Top(v, count);
      if top >= bit then Ok([0x100 - bit] + Le(v, count))
      else if count > min then Ok([top + 0x100 - 2 * bit] + Le(v, count - 1))
      else Ok([top] + Le(v, count - 1))
  }

  // A length prefix with nothing else in its byte, and one that shares it with the value's top bits.
  lemma BarePrefix(k: nat)
    requires 2 <= k <= 7
    ensures ExtraBytes(0x100 - Bit(k)) == 8 - k && (0x100 - Bit(k)) % Bit(k) == 0
  {
    if k == 2 {} else if k == 3 {} else if k == 4 {} else if k == 5 {} else if k == 6 {} else {}
  }

  lemma SharedPrefix(k: nat, top: byte)
    requires 1 <= k <= 6 && top < Bit(k)
    ensures 0 <= top + 0x100 - 2 * Bit(k) < 0x100
    ensures ExtraBytes(top + 0x100 - 2 * Bit(k)) == 7 - k && (top + 0x100 - 2 * Bit(k)) % Bit(k + 1) == top
  {
    if k == 1 {} else if k == 2 {} else if k == 3 {} else if k == 4 {} else if k == 5 {} else {}
  }

  lemma TopByte(v: nat, n: nat)
    requires n > 0 && v < Pow256(n)
    ensures v / Pow256(n - 1) < 0x100
    ensures v >= Pow256(n - 1) ==> v / Pow256(n - 1) > 0
    ensures Le(v, n) == Le(v, n - 1) + [v / Pow256(n - 1)]
  {
    hide Le;
    Pow256Step(n);
    LeSnoc(v, n - 1);
    hide Pow256;
    TopOf(v, Pow256(n - 1));
  }

  lemma Pow256Step(n: nat)
    requires n > 0
    ensures Pow256(n) == 0x100 * Pow256(n - 1)
  {
  }

  lemma TopOf(v: nat, p: nat)
    requires p > 0 && v < 0x100 * p
    ensures v / p < 0x100 && v / p % 0x100 == v / p
    ensures v >= p ==> v / p > 0
  {
    Quotient(v, p, 0x100);
  }

  lemma Quotient(v: nat, p: nat, k: nat)
    requires p > 0 && v < p * k
    ensures v / p < k
    ensures v >= p ==> v / p > 0
  {
    var q := v / p;
    assert v == p * q + v % p;
    if q >= k {
      Monotone(p, k, q);
    }
    if q == 0 {
      assert p * q == 0;
    }
  }

  lemma Monotone(p: nat, a: nat, b: nat)
    requires a <= b
    ensures p * a <= p * b
  {
    assert p * b == p * a + p * (b - a);
  }

  function EncodeVarint(v: u32): Result<seq<byte>> {
    if v > I32_MAX then Err(InvalidInput) else Encode(v, 1)
  }

  function EncodeVarlong(v: u64, min: int): Result<seq<byte>> {
    if !(1 <= min <= 8) then Err(InvalidInput) else Encode(v, min)
  }

  /** A four-byte value; the fifth byte the code word may carry is dropped. */
  function DecodeVarint(s: seq<byte>): (p: Parsed<u32>)
    ensures p.Ok? ==> |p.value.1| < |s|
  {
    var (first, s1) :- ReadU8(s);
    var extra := ExtraBytes(first);
    if extra > 4 then Err(InvalidData)
    else if extra == 0 then Ok((first, s1))
    else
      var (low, s2) :- Take(s1, extra);
      var bytes := (low + [first % Bit(8 - extra)] + [0, 0, 0])[..4];
      FromLeBound(bytes);
      Pow256Values();
      Ok((FromLe(bytes), s2))
  }

  function DecodeVarlong(s: seq<byte>, min: int): (p: Parsed<u64>)
    ensures p.Ok? ==> |p.value.1| < |s|
  {
    if !(1 <= min <= 8) then Err(InvalidInput)
    else
      var (prefix, s1) :- Take(s, min);
      var extra := ExtraBytes(prefix[0]);
      if min + extra > 8 then Err(InvalidData)
      else
        var (more, s2) :- Take(s1, extra);
        var top := if extra == 0 then prefix[0] else prefix[0] % Bit(8 - extra);
        var bytes := prefix[1..] + more + [top];
        FromLeFits(bytes);
        Ok((FromLe(bytes), s2))
  }

  lemma FromLeFits(b: seq<byte>)
    requires |b| <= 8
    ensures FromLe(b) < 0x1_0000_0000_0000_0000
  {
    FromLeBound(b);
    Pow256Monotone(|b|, 8);
    Pow256Values();
  }

  lemma {:induction false} Pow256Monotone(m: nat, n: nat)
    requires m <= n
    ensures Pow256(m) <= Pow256(n)
    decreases n - m
  {
    if m < n {
      Pow256Monotone(m + 1, n);
    }
  }

  /** The byte a code word starts with announces the right length and keeps the value's top bits. */
  lemma {:induction false} Shape(v: u64, min: nat)
    requires 1 <= min <= 8
    requires Encode(v, min).Ok? && |Encode(v, min).value| <= min + 6
    ensures var word := Encode(v, min).value;
            && word != [] && ExtraBytes(word[0]) == |word| - min
            && (|word| == min ==> FromLe(word[1..] + [word[0]]) == v)
            && (|word| > min ==> FromLe(word[1..] + [word[0] % Bit(8 - (|word| - min))]) == v)
  {
    var word := Encode(v, min).value;
    var count := SignificantBytes(v, min);
    var bit := Bit(7 - count + min);
    var top := v / Pow256(count - 1);
    TopByte(v, count);
    FromLeLe(v, count);
    if top >= bit {
      assert word[1..] == Le(v, count);
      BarePrefix(7 - count + min);
      FromLeSnoc(Le(v, count), 0);
    } else if count > min {
      assert word[1..] == Le(v, count - 1);
      SharedPrefix(7 - count + min, top);
    } else {
      assert word[1..] == Le(v, count - 1);
    }
  }

  /** Varints are a prefix code on 0..=i32::MAX, at most five bytes long; nothing else is written. */
  lemma {:induction false} VarintRoundTrip(v: u32, rest: seq<byte>)
    ensures EncodeVarint(v).Ok? <==> v <= I32_MAX
    ensures EncodeVarint(v).Ok? ==>
              && 1 <= |EncodeVarint(v).value| <= 5
              && DecodeVarint(EncodeVarint(v).value + rest) == Ok((v, rest))
              && (EncodeVarint(v).value[0] == 0 <==> v == 0)
  {
    if v <= I32_MAX {
      SmallCount(v);
      Shape(v, 1);
      Pow256Values();
      var word := Encode(v, 1).value;
      var s := word + rest;
      var extra := ExtraBytes(word[0]);
      assert s[1..] == word[1..] + rest;
      TakeAppended(word[1..], rest);
      if extra == 0 {
        assert word[1..] + [word[0]] == [word[0]];
      } else {
        var top := word[0] % Bit(8 - extra);
        var bytes := word[1..] + [top];
        if extra == 4 {
          FromLeSnoc(word[1..], top);
          assert (bytes + [0, 0, 0])[..4] == word[1..];
        } else {
          PadZeros(bytes, 4 - |bytes|);
          assert (bytes + [0, 0, 0])[..4] == bytes + Zeros(4 - |bytes|);
        }
      }
    }
  }

  function Zeros(n: nat): (z: seq<byte>)
    ensures |z| == n && forall i :: 0 <= i < n ==> z[i] == 0
  {
    if n == 0 then [] else [0] + Zeros(n - 1)
  }

  lemma {:induction false} PadZeros(b: seq<byte>, n: nat)
    ensures FromLe(b + Zeros(n)) == FromLe(b)
    decreases n
  {
    if n == 0 {
      assert b + Zeros(0) == b;
    } else {
      FromLeSnoc(b, 0);
      PadZeros(b + [0], n - 1);
      assert b + Zeros(n) == b + [0] + Zeros(n - 1);
    }
  }

  // A 31-bit value leaves the top of its fourth byte clear, so its word is at most five bytes.
  lemma {:induction false} SmallCount(v: u32)
    requires v <= I32_MAX
    ensures Encode(v, 1).Ok? && 1 <= |Encode(v, 1).value| <= 5
    ensures Encode(v, 1).value[0] == 0 <==> v == 0
  {
    Pow256Values();
    var count := SignificantBytes(v, 1);
    if count > 4 {
      Pow256Monotone(4, count - 1);
    }
    TopByte(v, count);
    assert Pow256(0) == 1;
  }

  /**
   * Varlongs read back exactly when the value fits seven bytes and the smallest length is 2..=7, or
   * when the smallest length is 1 and the value is below 2^49.
   */
  lemma {:induction false} VarlongRoundTripsExactly(v: u64, min: int, rest: seq<byte>)
    ensures EncodeVarlong(v, min).Ok? <==> 1 <= min <= 7 && v < 0x100_0000_0000_0000
    ensures EncodeVarlong(v, min).Ok? ==> |EncodeVarlong(v, min).value| <= 8
    ensures (EncodeVarlong(v, min).Ok? && DecodeVarlong(EncodeVarlong(v, min).value + rest, min) == Ok((v, rest)))
       <==> (2 <= min <= 7 && v < 0x100_0000_0000_0000) || (min == 1 && v < 0x2_0000_0000_0000)
  {
    Pow256Values();
    if 1 <= min <= 7 {
      var count := SignificantBytes(v, min);
      if v < Pow256(7) && count == 8 {
        assert false;
      }
      if count <= 7 {
        Pow256Monotone(count, 7);
        TopByte(v, count);
        WordLength(v, min);
        if |Encode(v, min).value| <= min + 6 {
          VarlongReadsBack(v, min, rest);
        } else {
          VarlongReadsShort(v, rest);
        }
      }
    }
  }

  // Only a one-byte minimum lets a word outgrow the six extra bytes a prefix can announce.
  lemma {:induction false} WordLength(v: u64, min: nat)
    requires 1 <= min <= 7 && SignificantBytes(v, min) <= 7
    ensures |Encode(v, min).value| <= 8
    ensures |Encode(v, min).value| > min + 6 <==> min == 1 && v >= 0x2_0000_0000_0000
  {
    Pow256Values();
    var count := SignificantBytes(v, min);
    TopByte(v, count);
    if min == 1 && v >= 0x2_0000_0000_0000 {
      Pow256Monotone(if count <= 6 then count else 6, 6);
      assert v / Pow256(6) >= 2;
    }
  }

  lemma {:induction false} VarlongReadsBack(v: u64, min: nat, rest: seq<byte>)
    requires 1 <= min <= 7 && Encode(v, min).Ok?
    requires |Encode(v, min).value| <= min + 6 && |Encode(v, min).value| <= 8
    ensures DecodeVarlong(Encode(v, min).value + rest, min) == Ok((v, rest))
  {
    var word := Encode(v, min).value;
    Shape(v, min);
    ReadsBack(word, v, min, rest);
  }

  lemma {:induction false} ReadsBack(word: seq<byte>, v: u64, min: nat, rest: seq<byte>)
    requires 1 <= min <= |word| <= 8 && ExtraBytes(word[0]) == |word| - min
    requires |word| == min ==> FromLe(word[1..] + [word[0]]) == v
    requires |word| > min ==> FromLe(word[1..] + [word[0] % Bit(8 - (|word| - min))]) == v
    ensures DecodeVarlong(word + rest, min) == Ok((v, rest))
  {
    var prefix, more := word[..min], word[min..];
    hide FromLe, ExtraBytes, Bit;
    assert word + rest == prefix + (more + rest);
    TakeAppended(prefix, more + rest);
    TakeAppended(more, rest);
    assert prefix[0] == word[0] && prefix[1..] + more == word[1..];
  }

  // The reader takes six extra bytes where seven were written, and leaves the last one behind.
  lemma {:induction false} VarlongReadsShort(v: u64, rest: seq<byte>)
    requires Encode(v, 1).Ok? && |Encode(v, 1).value| == 8
    ensures DecodeVarlong(Encode(v, 1).value + rest, 1) != Ok((v, rest))
  {
    var word := Encode(v, 1).value;
    var d := DecodeVarlong(word + rest, 1);
    if d.Ok? {
      assert |d.value.1| >= |word + rest| - 7;
    }
  }

  // The concrete failure: 2^49 needs a seven-byte prefix code, which the reader's table stops short of.
  lemma {:induction false} OneByteVarlongFails()
    ensures DecodeVarlong(EncodeVarlong(0x2_0000_0000_0000, 1).value + [], 1)
         != Ok((0x2_0000_0000_0000, []))
  {
    VarlongRoundTripsExactly(0x2_0000_0000_0000, 1, []);
  }

  method WriteVarint(w: Sink, value: u32) returns (r: Result<()>)
    modifies w
    ensures Writes(r, old(w.out), w.out, EncodeVarint(value))
    ensures r.Err? ==> w.out == old(w.out)
  {
    if value > I32_MAX {
      return Err(InvalidInput);
    }
    Pow256Values();
    var bytes := new byte[5](_ => 0);
    Fill(bytes, 1, Le(value, 4));
    assert bytes[1..] == Le(value, 4);
    var count := Trim(bytes, 1, value);
    SmallCount(value);
    var word := Pack(bytes, count, 1);
    w.WriteAll(word);
    r := Ok(());
  }

  method WriteVarlong(w: Sink, value: u64, min: int) returns (r: Result<()>)
    modifies w
    ensures Writes(r, old(w.out), w.out, EncodeVarlong(value, min))
    ensures r.Err? ==> w.out == old(w.out)
  {
    if !(1 <= min <= 8) {
      return Err(InvalidInput);
    }
    Pow256Values();
    var bytes := new byte[9](_ => 0);
    Fill(bytes, 1, Le(value, 8));
    assert bytes[1..] == Le(value, 8);
    var count := Trim(bytes, min, value);
    if count > 7 {
      return Err(ArithmeticOverflow);
    }
    var word := Pack(bytes, count, min);
    w.WriteAll(word);
    r := Ok(());
  }

  /** Drops the zero digits at the top of bytes[1..], down to `min` of them. */
  method Trim(bytes: array<byte>, min: nat, ghost v: u64) returns (count: nat)
    requires 1 <= min < bytes.Length <= 9
    requires v < Pow256(bytes.Length - 1) && bytes[1..] == Le(v, bytes.Length - 1)
    ensures count == SignificantBytes(v, min) && count < bytes.Length
    ensures bytes[1..count + 1] == Le(v, count) && bytes[1..count] == Le(v, count - 1)
    ensures bytes[count] == v / Pow256(count - 1)
    ensures count > min ==> bytes[count] != 0
  {
    count := bytes.Length - 1;
    while count > min && bytes[count] == 0
      invariant min <= count < bytes.Length
      invariant v < Pow256(count)
    {
      DigitAt(v, bytes.Length - 1, count);
      assert bytes[count] == bytes[1..][count - 1];
      count := count - 1;
    }
    DigitAt(v, bytes.Length - 1, count);
    assert bytes[count] == bytes[1..][count - 1];
    assert bytes[1..count] == bytes[1..][..count - 1];
    assert bytes[1..count + 1] == bytes[1..][..count];
    Minimal(v, min, count);
  }

  /** Turns the digits in bytes[1..=count] into a code word, using bytes[0] for the length prefix. */
  method Pack(bytes: array<byte>, count: nat, min: nat) returns (word: seq<byte>)
    requires 1 <= min <= count <= 7 && count + 1 <= bytes.Length
    requires count > min ==> bytes[count] != 0
    modifies bytes
    ensures old(bytes[count]) >= Bit(7 - count + min) ==>
              word == [0x100 - Bit(7 - count + min)] + old(bytes[1..count + 1])
    ensures old(bytes[count]) < Bit(7 - count + min) && count > min ==>
              word == [old(bytes[count]) + 0x100 - 2 * Bit(7 - count + min)] + old(bytes[1..count])
    ensures old(bytes[count]) < Bit(7 - count + min) && count == min ==>
              word == [old(bytes[count])] + old(bytes[1..count])
  {
    var bit := Bit(7 - count + min);
    var used := count;
    if bytes[count] >= bit {
      used := count + 1;
      bytes[0] := 0x100 - bit;
    } else if count > min {
      var top: int := bytes[count];
      SharedPrefix(7 - count + min, top);
      bytes[0] := top + 0x100 - 2 * bit;
    } else {
      bytes[0] := bytes[count];
    }
    word := bytes[..used];
    assert word == [bytes[0]] + bytes[1..used];
    assert bytes[1..used] == old(bytes[1..used]);
  }

  /** Copies `digits` into the buffer from index `at` on. */
  method Fill(bytes: array<byte>, at: nat, digits: seq<byte>)
    requires at + |digits| <= bytes.Length
    modifies bytes
    ensures bytes[..] == old(bytes[..at]) + digits + old(bytes[at + |digits|..])
  {
    var i := 0;
    while i < |digits|
      invariant 0 <= i <= |digits|
      invariant bytes[..at] == old(bytes[..at]) && bytes[at..at + i] == digits[..i]
      invariant bytes[at + |digits|..] == old(bytes[at + |digits|..])
    {
      bytes[at + i] := digits[i];
      assert bytes[at..at + i + 1] == bytes[at..at + i] + [digits[i]];
      i := i + 1;
    }
    assert bytes[..] == bytes[..at] + bytes[at..at + i] + bytes[at + i..];
  }

  lemma {:induction false} LowDigits(v: nat, n: nat, count: nat)
    requires count <= n
    ensures Le(v, n)[..count] == Le(v, count)
    decreases n
  {
    if count < n {
      LeSnoc(v, n - 1);
      LowDigits(v, n - 1, count);
    }
  }

  // The digits of `v` in an n-byte field: byte `count` is the top digit once the rest are zero.
  lemma {:induction false} DigitAt(v: nat, n: nat, count: nat)
    requires 1 <= count <= n && v < Pow256(count)
    ensures Le(v, n)[count - 1] == v / Pow256(count - 1)
    ensures Le(v, n)[..count] == Le(v, count)
    ensures Le(v, n)[..count - 1] == Le(v, count - 1)
    ensures v / Pow256(count - 1) == 0 <==> v < Pow256(count - 1)
  {
    LowDigits(v, n, count);
    LowDigits(v, n, count - 1);
    assert Le(v, n)[count - 1] == Le(v, n)[..count][count - 1];
    TopByte(v, count);
    if v < Pow256(count - 1) {
      DivUnique(v, Pow256(count - 1), 0, v);
    }
  }

  lemma {:induction false} Minimal(v: u64, min: nat, count: nat)
    requires min <= count <= 8 && v < Pow256(count)
    requires count > min ==> v >= Pow256(count - 1)
    ensures SignificantBytes(v, min) == count
  {
    hide SignificantBytes, Pow256;
    var n := SignificantBytes(v, min);
    if n < count {
      Pow256Monotone(n, count - 1);
    } else if n > count {
      Pow256Monotone(count, n - 1);
    }
  }

  method ReadVarint(reader: Source) returns (r: Result<u32>)
    modifies reader
    ensures Reads(r, reader.rest, DecodeVarint(old(reader.rest)))
  {
    var first :- reader.ReadByte();
    var extra := ExtraBytes(first);
    if extra > 4 {
      return Err(InvalidData);
    }
    var bytes := new byte[5](_ => 0);
    if extra == 0 {
      bytes[0] := first;
      PadZeros([first], 3);
      assert bytes[..4] == [first] + Zeros(3);
      assert FromLe([first]) == first;
    } else {
      var low :- reader.ReadExact(extra);
      Fill(bytes, 0, low);
      assert bytes[..] == low + Zeros(5 - extra);
      bytes[extra] := first % Bit(8 - extra);
      assert bytes[..] == low + [first % Bit(8 - extra)] + Zeros(4 - extra);
      assert bytes[..4] == (low + [first % Bit(8 - extra)] + [0, 0, 0])[..4];
    }
    FromLeBound(bytes[..4]);
    Pow256Values();
    r := Ok(FromLe(bytes[..4]));
  }

  method ReadVarlong(reader: Source, min: int) returns (r: Result<u64>)
    modifies reader
    ensures Reads(r, reader.rest, DecodeVarlong(old(reader.rest), min))
  {
    if !(1 <= min <= 8) {
      return Err(InvalidInput);
    }
    var prefix :- reader.ReadExact(min);
    var extra := ExtraBytes(prefix[0]);
    if min + extra > 8 {
      return Err(InvalidData);
    }
    var more: seq<byte>, top := [], prefix[0];
    if extra != 0 {
      more :- reader.ReadExact(extra);
      top := prefix[0] % Bit(8 - extra);
    }
    var value := Assemble(prefix[1..], more, top);
    r := Ok(value);
  }

  // A buffer of eight zeros, filled from the left in three steps.
  lemma Laid(low: seq<byte>, more: seq<byte>, top: byte, empty: seq<byte>, first: seq<byte>, second: seq<byte>)
    requires |low| + |more| < 8 == |empty| && forall i :: 0 <= i < 8 ==> empty[i] == 0
    requires first == low + empty[|low|..] && second == first[..|low|] + more + first[|low| + |more|..]
    ensures |second| == 8
    ensures second[|low| + |more| := top] == low + more + [top] + Zeros(7 - |low| - |more|)
  {
    hide Zeros;
    var at := |low| + |more|;
    assert first[..|low|] == low;
    assert second == low + more + empty[at..];
    assert empty[at..] == [0] + empty[at + 1..] && empty[at + 1..] == Zeros(7 - at);
    assert second[at := top] == low + more + [top] + empty[at + 1..];
  }

  /** Lays the digits out in an eight-byte buffer, lowest first, and reads it as one number. */
  method Assemble(low: seq<byte>, more: seq<byte>, top: byte) returns (v: u64)
    requires |low| + |more| < 8
    ensures v == FromLe(low + more + [top])
  {
    hide FromLe;
    var bytes := new byte[8](_ => 0);
    var at := |low| + |more|;
    ghost var empty := bytes[..];
    Fill(bytes, 0, low);
    ghost var first := bytes[..];
    Fill(bytes, |low|, more);
    ghost var second := bytes[..];
    bytes[at] := top;
    assert first == low + empty[|low|..];
    assert second == first[..|low|] + more + first[at..];
    assert bytes[..] == second[at := top];
    Laid(low, more, top, empty, first, second);
    PadZeros(low + more + [top], 7 - at);
    FromLeFits(bytes[..]);
    v := FromLe(bytes[..]);
  }
}
