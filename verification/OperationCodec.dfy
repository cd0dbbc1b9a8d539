/** The byte string that an operation is logged in, written at the back and read at the front. */
module OperationCodec {
  import opened Bytes

  type int16 = x: int | -0x8000 <= x < 0x8000
  type int32 = x: int | -0x8000_0000 <= x < 0x8000_0000

  /** A float is four bytes that are only copied. */
  type float32 = s: seq<byte> | |s| == 4 witness [0, 0, 0, 0]

  /** What a 16-bit or 32-bit integer keeps of a sum. */
  function Wrap16(v: int): int16 {
    (v + 0x8000) % 0x1_0000 - 0x8000
  }

  function Wrap32(v: int): int32 {
    (v + 0x8000_0000) % 0x1_0000_0000 - 0x8000_0000
  }

  function AsShort(w: nat): int {
    var low := w % 0x1_0000;
    if low < 0x8000 then low else low - 0x1_0000
  }

  lemma {:induction false} ShortValue(v: int16)
    ensures AsShort(Value(Signed(v, 2))) == v
  {
    hide Value, Encode;
    assert Power(2) == 0x1_0000;
    ValueOfEncode(v % 0x1_0000, 2);
  }

  lemma {:induction false} AppendInto(data: seq<byte>, x: seq<byte>, tail: seq<byte>)
    ensures (data + x) + tail == data + (x + tail)
  {
  }

  lemma {:induction false} CutFront(x: seq<byte>, tail: seq<byte>)
    ensures (x + tail)[..|x|] == x && (x + tail)[|x|..] == tail
  {
  }

  /** The data of an operation, written piece by piece: what is still to come is `tail`. */
  class Encoder {
    var data: seq<byte>

    constructor ()
      ensures data == []
    {
      data := [];
    }

    method Put(x: seq<byte>, ghost tail: seq<byte>, ghost whole: seq<byte>)
      requires whole == data + (x + tail)
      modifies this
      ensures data == old(data) + x && whole == data + tail
    {
      AppendInto(data, x, tail);
      data := data + x;
    }
  }

  /** Reads fields off the front. */
  class Decoder {
    var rest: seq<byte>

    constructor (data: seq<byte>)
      ensures rest == data
    {
      rest := data;
    }

    method Take(n: nat, ghost x: seq<byte>, ghost tail: seq<byte>) returns (taken: seq<byte>)
      requires |x| == n && rest == x + tail
      modifies this
      ensures taken == x && rest == tail
    {
      CutFront(x, tail);
      taken, rest := rest[..n], rest[n..];
    }

    method Int32(ghost v: int32, ghost tail: seq<byte>) returns (x: int32)
      requires rest == Signed(v, 4) + tail
      modifies this
      ensures x == v && rest == tail
    {
      hide Signed, Value, AsInt;
      var taken := Take(4, Signed(v, 4), tail);
      SignedValue(v);
      x := AsInt(Value(taken));
    }

    method Int16(ghost v: int16, ghost tail: seq<byte>) returns (x: int16)
      requires rest == Signed(v, 2) + tail
      modifies this
      ensures x == v && rest == tail
    {
      hide Signed, Value, AsShort;
      var taken := Take(2, Signed(v, 2), tail);
      ShortValue(v);
      x := AsShort(Value(taken));
    }

    method UInt32(ghost v: nat, ghost tail: seq<byte>) returns (x: nat)
      requires rest == Encode(v, 4) + tail && v < 0x1_0000_0000
      modifies this
      ensures x == v && rest == tail
    {
      hide Encode, Value, Power;
      var taken := Take(4, Encode(v, 4), tail);
      ValueOfEncode(v, 4);
      PowerValues();
      x := Value(taken);
    }
  }
}
