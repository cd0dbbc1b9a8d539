/** Bytes and little-endian integers, as the wire formats lay them out. */
module Bytes {
  type byte = x: int | 0 <= x < 256

  function Power(n: nat): (p: nat)
    ensures p >= 1
  {
    if n == 0 then 1 else 256 * Power(n - 1)
  }

  /** The number stored in `s`, least significant byte first. */
  function Value(s: seq<byte>): (v: nat)
    ensures v < Power(|s|)
  {
    if s == [] then 0 else s[0] + 256 * Value(s[1..])
  }

  /** `v` in `n` bytes; higher bytes of `v` are cut off. */
  function Encode(v: nat, n: nat): (s: seq<byte>)
    ensures |s| == n
  {
    if n == 0 then [] else [v % 256] + Encode(v / 256, n - 1)
  }

  lemma {:induction false} ValueOfEncode(v: nat, n: nat)
    ensures v < Power(n) ==> Value(Encode(v, n)) == v
  {
    if n > 0 {
      ValueOfEncode(v / 256, n - 1);
    }
  }

  /** The parts, one after the other. */
  function Flatten(parts: seq<seq<byte>>): seq<byte> {
    if parts == [] then [] else parts[0] + Flatten(parts[1..])
  }

  lemma {:induction false} FlattenAppend(parts: seq<seq<byte>>, last: seq<byte>)
    ensures Flatten(parts + [last]) == Flatten(parts) + last
  {
    if parts == [] {
      assert [last][1..] == [];
    } else {
      assert (parts + [last])[1..] == parts[1..] + [last];
      FlattenAppend(parts[1..], last);
    }
  }

  lemma {:induction false} FlattenAt(parts: seq<seq<byte>>, k: nat)
    requires k < |parts|
    ensures Flatten(parts[k..]) == parts[k] + Flatten(parts[k + 1..])
  {
    assert parts[k..][0] == parts[k] && parts[k..][1..] == parts[k + 1..];
  }

  lemma {:induction false} FlattenFront(parts: seq<seq<byte>>, k: nat)
    requires k < |parts|
    ensures Flatten(parts[k..])[..|parts[k]|] == parts[k]
    ensures Flatten(parts[k..]) == parts[k] + Flatten(parts[k + 1..])
    ensures Flatten(parts[k..])[|parts[k]|..] == Flatten(parts[k + 1..])
  {
    hide Flatten;
    FlattenAt(parts, k);
  }

  lemma {:induction false} FlattenBack(parts: seq<seq<byte>>, k: nat)
    requires k < |parts|
    ensures Flatten(parts[..k + 1]) == Flatten(parts[..k]) + parts[k]
  {
    FlattenAppend(parts[..k], parts[k]);
    assert parts[..k + 1] == parts[..k] + [parts[k]];
  }

  function Flag(b: bool): byte {
    if b then 1 else 0
  }

  /** Two's complement in `n` bytes. */
  function Signed(v: int, n: nat): (s: seq<byte>)
    ensures |s| == n
  {
    Encode(v % Power(n), n)
  }

  /** The signed 32-bit reading of a word's low half. */
  function AsInt(w: nat): int {
    var low := w % 0x1_0000_0000;
    if low < 0x8000_0000 then low else low - 0x1_0000_0000
  }

  lemma {:induction false} NoParts(parts: seq<seq<byte>>)
    ensures Flatten(parts[..0]) == []
  {
  }

  lemma {:induction false} FlattenSplit(parts: seq<seq<byte>>, k: nat)
    requires k <= |parts|
    ensures Flatten(parts) == Flatten(parts[..k]) + Flatten(parts[k..])
  {
    hide Flatten;
    if k == 0 {
      NoParts(parts);
      assert parts[0..] == parts;
    } else {
      FlattenSplit(parts, k - 1);
      FlattenBack(parts, k - 1);
      FlattenAt(parts, k - 1);
      Associative(Flatten(parts[..k - 1]), parts[k - 1], Flatten(parts[k..]));
    }
  }

  lemma {:induction false} Associative(a: seq<byte>, b: seq<byte>, c: seq<byte>)
    ensures (a + b) + c == a + (b + c)
  {
  }

  lemma {:induction false} PowerValues()
    ensures Power(4) == 0x1_0000_0000 && Power(8) == 0x1_0000_0000_0000_0000
  {
    assert Power(4) == 0x1_0000_0000;
    assert Power(8) == 256 * Power(7) && Power(7) == 256 * Power(6) && Power(6) == 256 * Power(5)
        && Power(5) == 256 * Power(4);
  }

  lemma {:induction false} SignedValue(v: int)
    requires -0x8000_0000 <= v < 0x8000_0000
    ensures AsInt(Value(Signed(v, 4))) == v && AsInt(Value(Signed(v, 8))) == v
  {
    hide Value, Encode, Power;
    PowerValues();
    ValueOfEncode(v % Power(4), 4);
    ValueOfEncode(v % Power(8), 8);
    WrapNegative(v);
  }

  lemma {:induction false} WrapNegative(v: int)
    requires -0x8000_0000 <= v < 0x8000_0000
    ensures AsInt(v % 0x1_0000_0000) == v && AsInt(v % 0x1_0000_0000_0000_0000) == v
  {
    if v < 0 {
      assert v % 0x1_0000_0000 == v + 0x1_0000_0000;
      assert v % 0x1_0000_0000_0000_0000 == 0x1_0000_0000 * 0xFFFF_FFFF + (v + 0x1_0000_0000);
    }
  }

  /** Reads the next fixed-size field off the front. */
  method ReadField(rest: seq<byte>, n: nat, ghost parts: seq<seq<byte>>, ghost k: nat) returns (v: nat, left: seq<byte>)
    requires k < |parts| && |parts[k]| == n && rest == Flatten(parts[k..])
    ensures v == Value(parts[k]) && left == Flatten(parts[k + 1..])
  {
    FlattenFront(parts, k);
    v, left := Value(rest[..n]), rest[n..];
  }
}
