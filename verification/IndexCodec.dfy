/** File indexes on the wire: each is sent as its distance from the last one of the same sign. */
module IndexCodec {
  import opened Wire
  import Varint

  const INDEX_DONE: i32 := -1

  datatype Prev = Prev(positive: i32, negative: i32)

  const INITIAL := Prev(-1, 1)

  function CheckedAdd(a: i32, b: i32): Option<i32> {
    if -0x8000_0000 <= a + b < 0x8000_0000 then Some(a + b) else None
  }

  function CheckedSub(a: i32, b: i32): Option<i32> {
    if -0x8000_0000 <= a - b < 0x8000_0000 then Some(a - b) else None
  }

  // The high bit of the second byte tells an absolute number from a distance.
  function SetSign(b: int): byte
    requires 0 <= b < 0x80
  {
    b + 0x80
  }

  lemma TopDigit(number: i32)
    requires number >= 0
    ensures Le(number, 4)[3] < 0x80
  {
    Pow256Values();
    Varint.TopByte(number, 4);
    Varint.Quotient(number, Pow256(3), 0x80);
  }

  function Delta(number: i32, diff: i32): seq<byte>
    requires number >= 0
  {
    if 0 < diff < 0xfe then [diff]
    else if 0 <= diff <= 0x7fff then [0xfe, diff / 0x100, diff % 0x100]
    else
      TopDigit(number);
      [0xfe, SetSign(Le(number, 4)[3])] + Le(number, 4)[..3]
  }

  function Encode(st: Prev, index: i32): Result<(seq<byte>, Prev)> {
    if index >= 0 then
      match CheckedSub(index, st.positive)
      case None => Err(InvalidInput)
      case Some(diff) => Ok((Delta(index, diff), st.(positive := index)))
    else if index == INDEX_DONE then Ok(([0], st))
    else if index == -0x8000_0000 then Err(InvalidInput)
    else
      match CheckedSub(-index, st.negative)
      case None => Err(InvalidInput)
      case Some(diff) => Ok(([0xff] + Delta(-index, diff), st.(negative := -index)))
  }

  // The absolute form: low byte first on the wire after the marked high byte.
  function Absolute(high: int, low: byte, mid: seq<byte>): i32
    requires 0x80 <= high < 0x100 && |mid| == 2
  {
    var bytes := [low] + mid + [high - 0x80];
    FromLeSnoc([low] + mid, high - 0x80);
    FromLeBound([low] + mid);
    Pow256Values();
    FromLe(bytes)
  }

  function Distance(high: int, low: int): int {
    high * 0x100 + low
  }

  /** The number after the sign marker; `prev` is the last number of that sign. */
  function DecodeNumber(prev: i32, first: byte, s: seq<byte>): Parsed<i32> {
    if first == 0xfe then
      var (high, s1) :- ReadU8(s);
      var (low, s2) :- ReadU8(s1);
      if high >= 0x80 then
        var (mid, s3) :- Take(s2, 2);
        Ok((Absolute(high, low, mid), s3))
      else
        match CheckedAdd(prev, Distance(high, low))
        case None => Err(InvalidData)
        case Some(n) => Ok((n, s2))
    else
      match CheckedAdd(prev, first)
      case None => Err(InvalidData)
      case Some(n) => Ok((n, s))
  }

  function Decode(st: Prev, s: seq<byte>): Parsed<(i32, Prev)> {
    var (first, s1) :- ReadU8(s);
    if first == 0xff then
      var (second, s2) :- ReadU8(s1);
      var (n, s3) :- DecodeNumber(st.negative, second, s2);
      if n == -0x8000_0000 then Err(InvalidData) else Ok(((-n, st.(negative := n)), s3))
    else if first == 0 then Ok(((INDEX_DONE, st), s1))
    else
      var (n, s2) :- DecodeNumber(st.positive, first, s1);
      Ok(((n, st.(positive := n)), s2))
  }

  lemma DeltaRoundTrip(prev: i32, number: i32, rest: seq<byte>)
    requires number >= 0 && CheckedSub(number, prev).Some?
    ensures var d := Delta(number, number - prev);
            d != [] && d[0] != 0 && d[0] != 0xff && DecodeNumber(prev, d[0], (d + rest)[1..]) == Ok((number, rest))
  {
    var d := Delta(number, number - prev);
    assert (d + rest)[1..] == d[1..] + rest;
    if |d| == 5 {
      assert (d[1..] + rest)[1..][1..] == d[3..] + rest;
      TakeAppended(d[3..], rest);
      TopDigit(number);
      Pow256Values();
      FromLeLe(number, 4);
      var le := Le(number, 4);
      assert d[2..] == le[..3] && [d[2]] + d[3..] == d[2..] && le[..3] + [le[3]] == le;
      assert [d[2]] + d[3..] + [le[3]] == le;
    } else if |d| == 3 {
      assert (d[1..] + rest)[1..][1..] == rest;
    }
  }

  /** One index: the reader in the writer's state returns it, moves to the writer's next state, takes no more. */
  lemma {:induction false} IndexRoundTrip(st: Prev, index: i32, rest: seq<byte>)
    requires Encode(st, index).Ok?
    ensures var (bytes, st') := Encode(st, index).value;
            Decode(st, bytes + rest) == Ok(((index, st'), rest))
  {
    hide Delta, DecodeNumber;
    var (bytes, st') := Encode(st, index).value;
    if index >= 0 {
      DeltaRoundTrip(st.positive, index, rest);
    } else if index != INDEX_DONE {
      DeltaRoundTrip(st.negative, -index, rest);
      var d := Delta(-index, -index - st.negative);
      assert (bytes + rest)[1..] == d + rest;
    }
  }

  function EncodeAll(st: Prev, indexes: seq<i32>): Result<(seq<byte>, Prev)>
    decreases indexes
  {
    if indexes == [] then Ok(([], st))
    else
      var (first, st1) :- Encode(st, indexes[0]);
      var (more, st2) :- EncodeAll(st1, indexes[1..]);
      Ok((first + more, st2))
  }

  function DecodeAll(st: Prev, s: seq<byte>, count: nat): Parsed<(seq<i32>, Prev)>
    decreases count
  {
    if count == 0 then Ok((([], st), s))
    else
      var ((first, st1), s1) :- Decode(st, s);
      var ((more, st2), s2) :- DecodeAll(st1, s1, count - 1);
      Ok((([first] + more, st2), s2))
  }

  /** Any run of indexes the writer accepts is read back with equal final states and nothing left over. */
  lemma {:induction false} StreamRoundTrip(st: Prev, indexes: seq<i32>, rest: seq<byte>)
    requires EncodeAll(st, indexes).Ok?
    ensures var (bytes, st') := EncodeAll(st, indexes).value;
            DecodeAll(st, bytes + rest, |indexes|) == Ok(((indexes, st'), rest))
    decreases indexes
  {
    var (bytes, st') := EncodeAll(st, indexes).value;
    if indexes == [] {
      assert bytes + rest == rest;
    } else {
      var (first, st1) := Encode(st, indexes[0]).value;
      var (more, _) := EncodeAll(st1, indexes[1..]).value;
      assert bytes + rest == first + (more + rest);
      IndexRoundTrip(st, indexes[0], more + rest);
      StreamRoundTrip(st1, indexes[1..], rest);
      assert [indexes[0]] + indexes[1..] == indexes;
    }
  }

  // From the initial state, a run is refused only where it holds i32::MIN, or opens its
  // non-negative indexes with i32::MAX.
  lemma {:induction false} RefusedExactly(st: Prev, indexes: seq<i32>)
    requires st.positive >= -1 && st.negative >= 1
    ensures EncodeAll(st, indexes).Ok? <==>
              forall i :: 0 <= i < |indexes| ==>
                && indexes[i] != -0x8000_0000
                && (indexes[i] == I32_MAX && st.positive == -1 ==> exists j :: 0 <= j < i && indexes[j] >= 0)
    decreases indexes
  {
    if indexes != [] {
      var head := indexes[0];
      var ok := head != -0x8000_0000 && !(head == I32_MAX && st.positive == -1);
      assert Encode(st, head).Ok? <==> ok;
      if ok {
        var (_, st1) := Encode(st, head).value;
        var tail := indexes[1..];
        RefusedExactly(st1, tail);
        forall i | 0 <= i < |tail|
          ensures (tail[i] == I32_MAX && st1.positive == -1 ==> exists j :: 0 <= j < i && tail[j] >= 0)
             <==> (tail[i] == I32_MAX && st.positive == -1 ==> exists j :: 0 <= j < i + 1 && indexes[j] >= 0)
        {
          if j :| 0 <= j < i + 1 && indexes[j] >= 0 {
            assert j > 0 ==> tail[j - 1] >= 0;
          }
          if j :| 0 <= j < i && tail[j] >= 0 {
            assert indexes[j + 1] >= 0;
          }
        }
        assert forall i :: 0 <= i < |tail| ==> tail[i] == indexes[i + 1];
        assert forall i :: 0 < i < |indexes| ==> indexes[i] == tail[i - 1];
      }
    }
  }

  method WriteDelta(w: Sink, number: i32, diff: i32)
    requires number >= 0
    modifies w
    ensures w.out == old(w.out) + Delta(number, diff)
  {
    if 0 < diff < 0xfe {
      w.WriteAll([diff]);
    } else if !(0 <= diff <= 0x7fff) {
      TopDigit(number);
      var bytes := Le(number, 4);
      w.WriteAll([0xfe]);
      w.WriteAll([SetSign(bytes[3])]);
      w.WriteAll(bytes[..3]);
    } else {
      w.WriteAll([0xfe]);
      w.WriteAll([diff / 0x100]);
      w.WriteAll([diff % 0x100]);
    }
  }

  class IndexState {
    var prevPositive: i32
    var prevNegative: i32

    ghost function State(): Prev
      reads this
    {
      Prev(prevPositive, prevNegative)
    }

    constructor ()
      ensures State() == INITIAL
    {
      prevPositive, prevNegative := -1, 1;
    }

    method Write(w: Sink, index: i32) returns (r: Result<()>)
      requires w as object != this
      modifies this, w
      ensures match Encode(old(State()), index)
              case Ok((bytes, st)) => r == Ok(()) && w.out == old(w.out) + bytes && State() == st
              case Err(e) => r == Err(e) && w.out == old(w.out) && State() == old(State())
    {
      var number: i32, diff: i32, negative: bool;
      if index >= 0 {
        match CheckedSub(index, prevPositive) {
          case None => return Err(InvalidInput);
          case Some(d) => diff := d;
        }
        prevPositive := index;
        number, negative := index, false;
      } else if index == INDEX_DONE {
        w.WriteAll([0]);
        return Ok(());
      } else {
        if index == -0x8000_0000 {
          return Err(InvalidInput);
        }
        number := -index;
        match CheckedSub(number, prevNegative) {
          case None => return Err(InvalidInput);
          case Some(d) => diff := d;
        }
        prevNegative := number;
        negative := true;
      }
      if negative {
        w.WriteAll([0xff]);
      }
      WriteDelta(w, number, diff);
      r := Ok(());
    }

    method Read(reader: Source) returns (r: Result<i32>)
      requires reader as object != this
      modifies this, reader
      ensures match Decode(old(State()), old(reader.rest))
              case Ok(((index, st), s)) => r == Ok(index) && reader.rest == s && State() == st
              case Err(e) => r == Err(e)
    {
      var first :- reader.ReadByte();
      var negative := first == 0xff;
      if negative {
        first :- reader.ReadByte();
      } else if first == 0 {
        return Ok(INDEX_DONE);
      }
      var prev := if negative then prevNegative else prevPositive;
      var number: i32;
      if first == 0xfe {
        var high :- reader.ReadByte();
        var low :- reader.ReadByte();
        if high >= 0x80 {
          var mid :- reader.ReadExact(2);
          number := Absolute(high, low, mid);
        } else {
          match CheckedAdd(prev, Distance(high, low)) {
            case None => return Err(InvalidData);
            case Some(n) => number := n;
          }
        }
      } else {
        match CheckedAdd(prev, first) {
          case None => return Err(InvalidData);
          case Some(n) => number := n;
        }
      }
      if negative {
        prevNegative := number;
        if number == -0x8000_0000 {
          return Err(InvalidData);
        }
        r := Ok(-number);
      } else {
        prevPositive := number;
        r := Ok(number);
      }
    }
  }
}
