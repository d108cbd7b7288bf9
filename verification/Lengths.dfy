/** The older protocol's long numbers, and strings behind a one- or two-byte length. */
module Lengths {
  import opened Wire

  /** Four bytes, or a marker and eight. */
  function EncodeLong(v: u64): Result<seq<byte>> {
    if v <= I32_MAX then Ok(Le(v, 4))
    else if v > I64_MAX then Err(InvalidInput)
    else Ok([0xff, 0xff, 0xff, 0xff] + Le(v, 8))
  }

  function DecodeLong(s: seq<byte>): (p: Parsed<u64>)
    ensures p.Ok? ==> |p.value.1| < |s|
  {
    var (v, s1) :- ReadI32Le(s);
    if v >= 0 then Ok((v, s1))
    else if v != -1 then Err(InvalidData)
    else
      var (w, s2) :- ReadI64Le(s1);
      if w < 0 then Err(InvalidData) else Ok((w, s2))
  }

  /** Every number the wire can carry comes back, and those are the ones up to the largest signed one. */
  lemma LongRoundTrip(v: u64, rest: seq<byte>)
    ensures EncodeLong(v).Ok? <==> v <= I64_MAX
    ensures EncodeLong(v).Ok? ==> DecodeLong(EncodeLong(v).value + rest) == Ok((v, rest))
  {
    if v <= I32_MAX {
      I32RoundTrip(v, rest);
    } else if v <= I64_MAX {
      var marker: seq<byte> := [0xff, 0xff, 0xff, 0xff];
      assert marker == Le(Unsigned32(-1), 4);
      I32RoundTrip(-1, Le(v, 8) + rest);
      I64RoundTrip(v, rest);
      assert marker + Le(v, 8) + rest == marker + (Le(v, 8) + rest);
    }
  }

  method WriteLong(w: Sink, v: u64) returns (r: Result<()>)
    modifies w
    ensures Writes(r, old(w.out), w.out, EncodeLong(v))
  {
    if v <= I32_MAX {
      w.WriteAll(Le(v, 4));
    } else {
      if v > I64_MAX {
        return Err(InvalidInput);
      }
      w.WriteAll([0xff, 0xff, 0xff, 0xff]);
      w.WriteAll(Le(v, 8));
    }
    r := Ok(());
  }

  method ReadLong(s: Source) returns (r: Result<u64>)
    modifies s
    ensures Reads(r, s.rest, DecodeLong(old(s.rest)))
  {
    var v :- s.ReadI32();
    if v >= 0 {
      return Ok(v);
    }
    if v != -1 {
      return Err(InvalidData);
    }
    var b :- s.ReadExact(8);
    FromLeBound(b);
    Pow256Values();
    var w := Signed64(FromLe(b));
    if w < 0 {
      return Err(InvalidData);
    }
    r := Ok(w);
  }

  const VSTRING_MAX: nat := 0x7fff

  function EncodeVstring(b: seq<byte>): Result<seq<byte>> {
    if |b| > VSTRING_MAX then Err(InvalidInput)
    else if |b| >= 0x80 then Ok([|b| / 0x100 + 0x80, |b| % 0x100] + b)
    else Ok([|b|] + b)
  }

  function DecodeVstring(maxLen: nat, s: seq<byte>): Parsed<seq<byte>> {
    var (first, s1) :- ReadU8(s);
    var top: int := first;
    if top >= 0x80 then
      var (second, s2) :- ReadU8(s1);
      var low: int := second;
      var len := (top - 0x80) * 0x100 + low;
      if len > maxLen then Err(InvalidData) else Take(s2, len)
    else if top > maxLen then Err(InvalidData)
    else Take(s1, top)
  }

  /** A string short enough for the wire comes back exactly when it is short enough for the reader. */
  lemma VstringRoundTrip(maxLen: nat, b: seq<byte>, rest: seq<byte>)
    ensures EncodeVstring(b).Ok? <==> |b| <= VSTRING_MAX
    ensures EncodeVstring(b).Ok? ==>
              (DecodeVstring(maxLen, EncodeVstring(b).value + rest) == Ok((b, rest)) <==> |b| <= maxLen)
  {
    if |b| <= VSTRING_MAX {
      TakeAppended(b, rest);
      var s := EncodeVstring(b).value + rest;
      if |b| >= 0x80 {
        assert s[1..][1..] == b + rest;
        assert |b| / 0x100 * 0x100 + |b| % 0x100 == |b|;
      } else {
        assert s[1..] == b + rest;
      }
    }
  }

  method WriteVstring(w: Sink, b: seq<byte>) returns (r: Result<()>)
    modifies w
    ensures Writes(r, old(w.out), w.out, EncodeVstring(b))
  {
    if |b| > VSTRING_MAX {
      return Err(InvalidInput);
    }
    if |b| >= 0x80 {
      w.WriteAll([|b| / 0x100 + 0x80]);
    }
    w.WriteAll([|b| % 0x100]);
    w.WriteAll(b);
    r := Ok(());
  }

  method ReadVstring(s: Source, maxLen: nat) returns (r: Result<seq<byte>>)
    modifies s
    ensures Reads(r, s.rest, DecodeVstring(maxLen, old(s.rest)))
  {
    var first :- s.ReadByte();
    var len: int := first;
    if len >= 0x80 {
      var second :- s.ReadByte();
      var low: int := second;
      len := (len - 0x80) * 0x100 + low;
    }
    if len > maxLen {
      return Err(InvalidData);
    }
    r := s.ReadExact(len);
  }
}
