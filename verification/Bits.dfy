/** Words as natural numbers taken apart bit by bit: shifts, masks, or, and bit fields. */
module Bits {
  /** The `k` lowest bits. */
  function Low(k: nat, h: nat): nat {
    if k == 0 then 0 else h % 2 + 2 * Low(k - 1, h / 2)
  }

  /** Shift right. */
  function Shr(k: nat, h: nat): nat {
    if k == 0 then h else Shr(k - 1, h / 2)
  }

  /** The bits of `x` above the `k` lowest bits of `low`. */
  function Join(k: nat, low: nat, x: nat): nat {
    if k == 0 then x else low % 2 + 2 * Join(k - 1, low / 2, x)
  }

  /** Shift left. */
  function Shl(k: nat, x: nat): nat {
    Join(k, 0, x)
  }

  /** Bitwise or. */
  function Or(a: nat, b: nat): nat {
    if a == 0 then b else if b == 0 then a
    else (if a % 2 == 1 || b % 2 == 1 then 1 else 0) + 2 * Or(a / 2, b / 2)
  }

  predicate Fits(width: nat, v: nat) {
    Shr(width, v) == 0
  }

  function GetField(h: nat, offset: nat, width: nat): nat {
    Low(width, Shr(offset, h))
  }

  /** The word with one field's bits cleared. */
  function ClearField(h: nat, offset: nat, width: nat): nat {
    Join(offset, h, Shl(width, Shr(width, Shr(offset, h))))
  }

  /** The field cleared, and the shifted value or-ed in whatever its size. */
  function SetField(h: nat, offset: nat, width: nat, v: nat): nat {
    Or(ClearField(h, offset, width), Shl(offset, v))
  }

  // ---------- bits ----------

  lemma {:induction false} OrBit(x: nat, r: nat, y: nat, s: nat)
    requires r < 2 && s < 2 && (r == 0 || s == 0)
    ensures Or(2 * x + r, 2 * y + s) == 2 * Or(x, y) + r + s
  {
  }

  lemma {:induction false} OrZero(x: nat)
    ensures Or(x, 0) == x && Or(0, x) == x
  {
  }

  lemma {:induction false} OrJoin(k: nat, low: nat, x: nat, y: nat)
    ensures Or(Join(k, low, x), Shl(k, y)) == Join(k, low, Or(x, y))
  {
    if k > 0 {
      OrJoin(k - 1, low / 2, x, y);
      OrBit(Join(k - 1, low / 2, x), low % 2, Shl(k - 1, y), 0);
    }
  }

  lemma {:induction false} OrIntoZeros(k: nat, x: nat, v: nat)
    ensures Or(Shl(k, x), v) == Join(k, v, Or(x, Shr(k, v)))
  {
    if k > 0 {
      OrIntoZeros(k - 1, x, v / 2);
      OrBit(Shl(k - 1, x), 0, v / 2, v % 2);
    }
  }

  lemma {:induction false} PartsOfJoin(k: nat, low: nat, x: nat)
    ensures Shr(k, Join(k, low, x)) == x && Low(k, Join(k, low, x)) == Low(k, low)
  {
    if k > 0 {
      PartsOfJoin(k - 1, low / 2, x);
    }
  }

  lemma {:induction false} ShrShr(j: nat, k: nat, h: nat)
    ensures Shr(j + k, h) == Shr(k, Shr(j, h))
  {
    if j > 0 {
      ShrShr(j - 1, k, h / 2);
    }
  }

  lemma {:induction false} LowIsAll(k: nat, v: nat)
    ensures Low(k, v) == v <==> Fits(k, v)
    ensures Low(k, v) <= v
  {
    if k > 0 {
      LowIsAll(k - 1, v / 2);
    }
  }

  /** The low `j` bits only depend on the low `k` bits. */
  lemma {:induction false} LowOfLow(j: nat, k: nat, g: nat, h: nat)
    requires Low(k, g) == Low(k, h) && j <= k
    ensures Low(j, g) == Low(j, h)
  {
    if j > 0 {
      LowOfLow(j - 1, k - 1, g / 2, h / 2);
    }
  }

  lemma {:induction false} ShrOfLow(j: nat, k: nat, g: nat, h: nat)
    requires Low(j + k, g) == Low(j + k, h)
    ensures Low(k, Shr(j, g)) == Low(k, Shr(j, h))
  {
    if j > 0 {
      ShrOfLow(j - 1, k, g / 2, h / 2);
    }
  }

  /** A sum of a value and a shifted one: the value's overflow is added to the shifted one. */
  lemma {:induction false} AddJoin(k: nat, v: nat, y: nat)
    ensures v + Shl(k, y) == Join(k, v, Shr(k, v) + y)
  {
    if k > 0 {
      AddJoin(k - 1, v / 2, y);
    }
  }

  // ---------- fields ----------

  lemma {:induction false} SetFieldParts(h: nat, offset: nat, width: nat, v: nat)
    ensures SetField(h, offset, width, v) == Join(offset, h, Join(width, v, Or(Shr(offset + width, h), Shr(width, v))))
  {
    var high := Shr(width, Shr(offset, h));
    ShrShr(offset, width, h);
    OrJoin(offset, h, Shl(width, high), v);
    OrIntoZeros(width, high, v);
  }

  /** A field reads back its value cut to the field's width; so it reads back the value exactly
      when the value fits. */
  lemma {:induction false} SetThenGet(h: nat, offset: nat, width: nat, v: nat)
    ensures GetField(SetField(h, offset, width, v), offset, width) == Low(width, v)
    ensures GetField(SetField(h, offset, width, v), offset, width) == v <==> Fits(width, v)
  {
    var x := Join(width, v, Or(Shr(offset + width, h), Shr(width, v)));
    SetFieldParts(h, offset, width, v);
    PartsOfJoin(offset, h, x);
    PartsOfJoin(width, v, Or(Shr(offset + width, h), Shr(width, v)));
    LowIsAll(width, v);
  }

  /** Setting a field leaves every lower field alone, and with a value that fits every higher one. */
  lemma {:induction false} SetKeepsOthers(h: nat, offset: nat, width: nat, v: nat, offset2: nat, width2: nat)
    requires offset2 + width2 <= offset || (offset + width <= offset2 && Fits(width, v))
    ensures GetField(SetField(h, offset, width, v), offset2, width2) == GetField(h, offset2, width2)
  {
    var high := Or(Shr(offset + width, h), Shr(width, v));
    var x := Join(width, v, high);
    var g := SetField(h, offset, width, v);
    SetFieldParts(h, offset, width, v);
    PartsOfJoin(offset, h, x);
    if offset2 + width2 <= offset {
      LowOfLow(offset2 + width2, offset, g, h);
      ShrOfLow(offset2, width2, g, h);
    } else {
      OrZero(Shr(offset + width, h));
      PartsOfJoin(width, v, high);
      ShrShr(offset, width, g);
      ShrShr(offset + width, offset2 - (offset + width), g);
      ShrShr(offset + width, offset2 - (offset + width), h);
    }
  }

  lemma {:induction false} ShlShl(j: nat, k: nat, x: nat)
    ensures Shl(j + k, x) == Shl(j, Shl(k, x))
  {
    if j > 0 {
      ShlShl(j - 1, k, x);
    }
  }

  lemma {:induction false} ShlAdd(k: nat, x: nat, y: nat)
    ensures Shl(k, x + y) == Shl(k, x) + Shl(k, y)
  {
    if k > 0 {
      ShlAdd(k - 1, x, y);
    }
  }

  lemma {:induction false} LowLow(k: nat, h: nat)
    ensures Low(k, Low(k, h)) == Low(k, h)
  {
    if k > 0 {
      LowLow(k - 1, h / 2);
    }
  }

  lemma {:induction false} LowBit(k: nat, b: nat, m: nat)
    requires b < 2
    ensures Low(k + 1, 2 * m + b) == 2 * Low(k, m) + b
  {
  }

  /** Counting modulo a power of two. */
  lemma {:induction false} LowSucc(k: nat, n: nat)
    ensures Low(k, Low(k, n) + 1) == Low(k, n + 1)
  {
    if k > 0 {
      var m, b := n / 2, n % 2;
      LowSucc(k - 1, m);
      LowLow(k - 1, m);
      LowBit(k - 1, b, m);
      LowSuccBit(k, b, m, Low(k - 1, m));
    }
  }

  lemma {:induction false} LowSuccBit(k: nat, b: nat, m: nat, low: nat)
    requires k > 0 && b < 2 && low == Low(k - 1, m) && Low(k - 1, low) == low
    requires Low(k - 1, low + 1) == Low(k - 1, m + 1)
    ensures Low(k, 2 * low + b + 1) == Low(k, 2 * m + b + 1)
  {
    hide Low;
    if b == 0 {
      LowBit(k - 1, 1, low);
      LowBit(k - 1, 1, m);
    } else {
      LowBit(k - 1, 0, low + 1);
      LowBit(k - 1, 0, m + 1);
    }
  }

  /** Cutting a word does not change the fields below the cut. */
  lemma {:induction false} FieldOfLow(h: nat, cut: nat, offset: nat, width: nat)
    requires offset + width <= cut
    ensures GetField(Low(cut, h), offset, width) == GetField(h, offset, width)
  {
    LowLow(cut, h);
    LowOfLow(offset + width, cut, Low(cut, h), h);
    ShrOfLow(offset, width, Low(cut, h), h);
  }

  lemma {:induction false} ShrNone(h: nat)
    ensures Shr(0, h) == h
  {
  }

  function Two(k: nat): nat {
    if k == 0 then 1 else 2 * Two(k - 1)
  }

  lemma {:induction false} FitsIff(k: nat, v: nat)
    ensures Fits(k, v) <==> v < Two(k)
  {
    if k > 0 {
      FitsIff(k - 1, v / 2);
    }
  }

  // ---------- single bits ----------

  predicate Bit(k: nat, h: nat) {
    Shr(k, h) % 2 == 1
  }

  lemma {:induction false} OrBits(k: nat, a: nat, b: nat)
    ensures Bit(k, Or(a, b)) <==> Bit(k, a) || Bit(k, b)
  {
    if a == 0 || b == 0 {
      NoBits(k);
    } else if k > 0 {
      OrBits(k - 1, a / 2, b / 2);
    }
  }

  lemma {:induction false} NoBits(k: nat)
    ensures !Bit(k, 0) && Shr(k, 0) == 0
  {
    if k > 0 {
      NoBits(k - 1);
    }
  }

  lemma {:induction false} BitOfJoin(k: nat, j: nat, low: nat, x: nat)
    ensures Bit(k, Join(j, low, x)) <==> if k < j then Bit(k, low) else Bit(k - j, x)
  {
    if j > 0 && k > 0 {
      BitOfJoin(k - 1, j - 1, low / 2, x);
    }
  }

  lemma {:induction false} OneBit(k: nat)
    ensures Bit(k, 1) <==> k == 0
  {
    if k > 0 {
      NoBits(k - 1);
    }
  }

  lemma {:induction false} BitAt(h: nat, i: nat)
    ensures Bit(i, h) <==> Shr(i, h) % 2 == 1
  {
  }

  lemma {:induction false} ShrNext(i: nat, h: nat)
    ensures Shr(i + 1, h) == Shr(i, h) / 2
  {
    ShrShr(i, 1, h);
  }

  lemma {:induction false} ZeroLow(k: nat)
    ensures Low(k, 0) == 0
  {
    if k > 0 {
      ZeroLow(k - 1);
    }
  }

  /** A bit of a field is a bit of the word. */
  lemma {:induction false} BitOfField(h: nat, offset: nat, width: nat, k: nat)
    requires k < width
    ensures Bit(k, GetField(h, offset, width)) <==> Bit(offset + k, h)
    ensures Low(1, Shr(k, GetField(h, offset, width))) == 1 <==> Bit(k, GetField(h, offset, width))
  {
    ShrShr(offset, k, h);
    BitOfLow(width, k, Shr(offset, h));
    assert Low(1, Shr(k, GetField(h, offset, width)))
        == Shr(k, GetField(h, offset, width)) % 2 + 2 * Low(0, Shr(k, GetField(h, offset, width)) / 2);
  }

  lemma {:induction false} BitOfLow(width: nat, k: nat, h: nat)
    requires k < width
    ensures Bit(k, Low(width, h)) <==> Bit(k, h)
  {
    if k > 0 {
      BitOfLow(width - 1, k - 1, h / 2);
    }
  }

  /** A word is its low bits and the rest. */
  lemma {:induction false} SplitWord(k: nat, h: nat)
    ensures Join(k, h, Shr(k, h)) == h
  {
    if k > 0 {
      SplitWord(k - 1, h / 2);
    }
  }
}
