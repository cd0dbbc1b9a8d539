/** The bitmap that hands out cluster indices. */
module IndexBitmap {
  import opened Bits

  /** The first clear bit of a byte. */
  method FindFirstZero(value: nat, start: nat) returns (i: int)
    requires start <= 8
    ensures i == -1 || start <= i < 8
    ensures i >= 0 ==> !Bit(i, value) && forall k :: start <= k < i ==> Bit(k, value)
    ensures i == -1 ==> forall k :: start <= k < 8 ==> Bit(k, value)
  {
    hide Bit;
    i := start;
    while i < 8
      invariant start <= i <= 8 && forall k :: start <= k < i ==> Bit(k, value)
    {
      BitAt(value, i);
      if Shr(i, value) % 2 == 0 {
        return;
      }
      i := i + 1;
    }
    i := -1;
  }

  /** Bit `i` of the byte array. */
  predicate BitOf(bytes: seq<nat>, i: nat) {
    i / 8 < |bytes| && Bit(i % 8, bytes[i / 8])
  }

  ghost function SetBits(bytes: seq<nat>): set<nat> {
    set i: nat | i < 8 * |bytes| && BitOf(bytes, i)
  }

  lemma {:induction false} SetBitOf(bytes: seq<nat>, index: nat)
    requires index / 8 < |bytes|
    ensures SetBits(bytes[index / 8 := Or(bytes[index / 8], Shl(index % 8, 1))]) == SetBits(bytes) + {index}
  {
    hide Or, Shl, Bit;
    var more := bytes[index / 8 := Or(bytes[index / 8], Shl(index % 8, 1))];
    forall i: nat | i < 8 * |bytes| ensures BitOf(more, i) <==> BitOf(bytes, i) || i == index {
      if i / 8 == index / 8 {
        OneBitSet(bytes[index / 8], index % 8, i % 8);
      }
    }
  }

  lemma {:induction false} OneBitSet(h: nat, j: nat, k: nat)
    ensures Bit(k, Or(h, Shl(j, 1))) <==> Bit(k, h) || k == j
  {
    hide Or, Bit;
    OrBits(k, h, Shl(j, 1));
    BitOfJoin(k, j, 0, 1);
    if k < j {
      NoBits(k);
    } else {
      OneBit(k - j);
    }
  }

  lemma {:induction false} OneBitCleared(h: nat, j: nat, k: nat)
    ensures Bit(k, ClearField(h, j, 1)) <==> Bit(k, h) && k != j
  {
    hide Bit;
    var high := Shr(1, Shr(j, h));
    BitOfJoin(k, j, h, Shl(1, high));
    if k >= j {
      BitOfJoin(k - j, 1, 0, high);
      if k == j {
        NoBits(0);
      } else {
        ShrShr(1, k - j - 1, Shr(j, h));
        ShrShr(j, k - j, h);
        BitAt(high, k - j - 1);
        BitAt(h, k);
      }
    }
  }

  lemma {:induction false} ClearBitOf(bytes: seq<nat>, index: nat)
    requires index / 8 < |bytes|
    ensures SetBits(bytes[index / 8 := ClearField(bytes[index / 8], index % 8, 1)]) == SetBits(bytes) - {index}
  {
    hide ClearField, Bit;
    var fewer := bytes[index / 8 := ClearField(bytes[index / 8], index % 8, 1)];
    forall i: nat | i < 8 * |bytes| ensures BitOf(fewer, i) <==> BitOf(bytes, i) && i != index {
      if i / 8 == index / 8 {
        OneBitCleared(bytes[index / 8], index % 8, i % 8);
      }
    }
  }

  /** What a byte is when it compares equal to -1. */
  predicate AllOnes(value: nat) {
    forall k: nat :: k < 8 ==> Bit(k, value)
  }

  // ---------- searching from an index ----------

  ghost predicate InUse(used: set<nat>, a: nat, b: nat) {
    forall i: nat :: a <= i < b ==> i in used
  }

  /** The lowest index from `start` on that is not in use. */
  ghost predicate IsLowest(used: set<nat>, start: nat, low: nat) {
    start <= low && low !in used && InUse(used, start, low)
  }

  /** What a search from `start` promises: the lowest free index, or -1 when there is none. */
  ghost predicate IsNext(used: set<nat>, size: nat, start: nat, index: int) {
    if index == -1 then InUse(used, start, size) else index >= 0 && IsLowest(used, start, index)
  }

  /** The search keeps its position within the first byte as long as the bytes are full, and so does
      not see a free index that lies in a lower position of a later byte. */
  ghost predicate Misled(used: set<nat>, size: nat, start: nat) {
    && InUse(used, start / 8 * 8, start)
    && exists low: nat :: IsLowest(used, start, low) && low < size && start / 8 < low / 8 && low % 8 < start % 8
  }

  /** The search has come to byte `iter` and looks from position `from`; nothing free was passed. */
  ghost predicate Searching(used: set<nat>, start: nat, iter: nat, from: nat) {
    && start / 8 <= iter && (from == start % 8 || (from == 0 && iter > start / 8))
    && InUse(used, start, 8 * iter)
    && (from != 0 && iter > start / 8 ==> InUse(used, start / 8 * 8, start))
  }

  /** The same when the search is misled: up to the free index it keeps its position. */
  ghost predicate Straying(start: nat, low: nat, iter: nat, from: nat) {
    start / 8 <= iter && (iter <= low / 8 ==> from == start % 8)
  }

  lemma {:induction false} PassFull(used: set<nat>, start: nat, iter: nat, from: nat)
    requires Searching(used, start, iter, from) && InUse(used, 8 * iter, 8 * iter + 8)
    ensures Searching(used, start, iter + 1, from)
  {
  }

  lemma {:induction false} Misleads(used: set<nat>, size: nat, start: nat, low: nat)
    requires InUse(used, start / 8 * 8, start) && IsLowest(used, start, low) && low < size
    requires start / 8 < low / 8 && low % 8 < start % 8
    ensures Misled(used, size, start)
  {
    hide IsLowest, InUse;
  }

  /** A byte without a free position from `from` on, which is not full, comes first or misleads. */
  lemma {:induction false} PassSeen(used: set<nat>, size: nat, start: nat, iter: nat, from: nat)
    requires Searching(used, start, iter, from) && !Misled(used, size, start) && forall i :: i in used ==> i < size
    requires InUse(used, 8 * iter + from, 8 * iter + 8) && from < 8 && !InUse(used, 8 * iter, 8 * iter + 8)
    ensures Searching(used, start, iter + 1, 0)
  {
    hide Misled;
    if iter > start / 8 && from != 0 {
      var low := FirstFree(used, 8 * iter, 8 * iter + 8);
      assert 8 * iter + 7 in used;
      Misleads(used, size, start, low);
    }
  }

  lemma {:induction false} StrayFull(start: nat, low: nat, iter: nat, from: nat)
    requires Straying(start, low, iter, from)
    ensures Straying(start, low, iter + 1, from)
  {
  }

  /** The first free index among some. */
  ghost function FirstFree(used: set<nat>, a: nat, b: nat): (low: nat)
    requires !InUse(used, a, b)
    ensures a <= low < b && low !in used && InUse(used, a, low)
    decreases b - a
  {
    if a !in used then a else FirstFree(used, a + 1, b)
  }

  lemma {:induction false} StrayOn(used: set<nat>, start: nat, low: nat, iter: nat, from: nat)
    requires InUse(used, start / 8 * 8, start) && IsLowest(used, start, low) && Straying(start, low, iter, from)
    requires InUse(used, 8 * iter + from, 8 * iter + 8) && !InUse(used, 8 * iter, 8 * iter + 8)
    ensures Straying(start, low, iter + 1, 0)
  {
    var free := FirstFree(used, 8 * iter, 8 * iter + 8);
    assert iter + 1 <= low / 8 ==> free < low;
  }

  lemma {:induction false} FoundNext(used: set<nat>, size: nat, start: nat, iter: nat, from: nat, index: nat)
    requires Searching(used, start, iter, from) && !Misled(used, size, start) && 8 * iter + from <= index < 8 * iter + 8
    requires index !in used && InUse(used, 8 * iter + from, index)
    ensures start <= index && IsNext(used, size, start, if index < size then index else -1)
  {
    if iter > start / 8 && from != 0 && !InUse(used, 8 * iter, 8 * iter + from) {
      var low := FirstFree(used, 8 * iter, 8 * iter + from);
      assert IsLowest(used, start, low) && start / 8 < low / 8 && low % 8 < start % 8;
      assert low >= size;
    }
  }

  lemma {:induction false} FoundOther(used: set<nat>, size: nat, start: nat, low: nat, iter: nat, from: nat,
          index: nat)
    requires IsLowest(used, start, low) && low < size && low % 8 < start % 8 && start / 8 < low / 8
    requires Straying(start, low, iter, from) && 8 * iter + from <= index < 8 * iter + 8 && index !in used
    ensures start <= index && !IsNext(used, size, start, if index < size then index else -1)
  {
  }

  /** With the first byte in use, the search for a free index from 1 of 16 does not see 8. */
  lemma {:induction false} FullByteMisleads()
    ensures Misled({0, 1, 2, 3, 4, 5, 6, 7}, 16, 1) && IsNext({0, 1, 2, 3, 4, 5, 6, 7}, 16, 1, 8)
  {
    assert IsLowest({0, 1, 2, 3, 4, 5, 6, 7}, 1, 8);
  }

  lemma {:induction false} StartsSearching(used: set<nat>, start: nat, low: nat)
    ensures Searching(used, start, start / 8, start % 8) && Straying(start, low, start / 8, start % 8)
  {
  }

  /** The free index that a misled search does not see. */
  ghost function Unseen(used: set<nat>, size: nat, start: nat): (low: nat)
    requires Misled(used, size, start)
    ensures IsLowest(used, start, low) && low < size && start / 8 < low / 8 && low % 8 < start % 8
    ensures InUse(used, start / 8 * 8, start)
  {
    var low: nat :| IsLowest(used, start, low) && low < size && start / 8 < low / 8 && low % 8 < start % 8;
    low
  }

  class Bitmap {
    const size: nat
    const bytes: array<nat>

    ghost predicate Valid()
      reads this, bytes
    {
      bytes.Length == size / 8 + 1 && forall i :: i in Used() ==> i < size
    }

    ghost function Used(): set<nat>
      reads this, bytes
    {
      SetBits(bytes[..])
    }

    constructor (size: nat)
      ensures Valid() && this.size == size && Used() == {} && fresh(bytes)
    {
      this.size := size;
      bytes := new nat[size / 8 + 1](_ => 0);
      new;
      forall i: nat | i < 8 * bytes.Length ensures !BitOf(bytes[..], i) {
        NoBits(i % 8);
      }
    }

    method SetBit(index: nat)
      requires Valid() && index < size
      modifies bytes
      ensures Valid() && Used() == old(Used()) + {index}
    {
      hide SetBits, Or, Shl;
      SetBitOf(bytes[..], index);
      ghost var was := bytes[..];
      bytes[index / 8] := Or(bytes[index / 8], Shl(index % 8, 1));
      assert bytes[..] == was[index / 8 := Or(was[index / 8], Shl(index % 8, 1))];
      assert Used() == SetBits(was) + {index};
      forall i | i in Used() ensures i < size {
        assert i == index || i in old(Used());
      }
    }

    method ClearBit(index: nat)
      requires Valid() && index < size
      modifies bytes
      ensures Valid() && Used() == old(Used()) - {index}
    {
      hide SetBits, ClearField;
      ClearBitOf(bytes[..], index);
      ghost var was := bytes[..];
      bytes[index / 8] := ClearField(bytes[index / 8], index % 8, 1);
      assert bytes[..] == was[index / 8 := ClearField(was[index / 8], index % 8, 1)];
      assert Used() == SetBits(was) - {index};
      forall i | i in Used() ensures i < size {
        assert i in old(Used());
      }
    }

    /** A free index not below `start`, or -1. It is the lowest one, and -1 means that there is none,
        if and only if the search is not misled; from the first position of a byte it never is. */
    method NextUnsettedBit(start: nat) returns (index: int)
      requires Valid() && start / 8 <= size / 8
      ensures index == -1 || (start <= index < size && index !in Used())
      ensures IsNext(Used(), size, start, index) <==> !Misled(Used(), size, start)
      ensures start % 8 == 0 ==> !Misled(Used(), size, start)
    {
      hide Bit, Used, AllOnes, IsNext, Searching, Straying, IsLowest, InUse;
      ghost var used, misled := Used(), Misled(Used(), size, start);
      ghost var low := if misled then Unseen(used, size, start) else 0;
      hide Misled;
      index := -1;
      var startInByte: nat, iter: nat := start % 8, start / 8;
      var end := if size % 8 == 0 then size / 8 else size / 8 + 1;
      StartsSearching(used, start, low);
      while iter <= end
        invariant start / 8 <= iter <= size / 8 && startInByte < 8 && index == -1
        invariant if misled then Straying(start, low, iter, startInByte) else Searching(used, start, iter, startInByte)
      {
        FullIsInUse(iter);
        NotLast(iter, startInByte);
        if !AllOnes(bytes[iter]) {
          var at := FindFirstZero(bytes[iter], startInByte);
          if at >= 0 {
            index := iter * 8 + at;
            Found(iter, startInByte, at);
            if misled {
              FoundOther(used, size, start, low, iter, startInByte, index);
            } else {
              FoundNext(used, size, start, iter, startInByte, index);
            }
            break;
          }
          BitsInUse(iter, startInByte, 8);
          assert iter < size / 8;
          if misled {
            StrayOn(used, start, low, iter, startInByte);
          } else {
            PassSeen(used, size, start, iter, startInByte);
          }
          startInByte := 0;
        } else if misled {
          StrayFull(start, low, iter, startInByte);
        } else {
          PassFull(used, start, iter, startInByte);
        }
        iter := iter + 1;
      }
      if index >= size {
        index := -1;
      }
    }

    lemma {:induction false} BitIs(iter: nat, k: nat)
      requires Valid() && iter <= size / 8 && k < 8
      ensures Bit(k, bytes[iter]) <==> 8 * iter + k in Used()
    {
      hide Bit;
      assert (8 * iter + k) / 8 == iter && (8 * iter + k) % 8 == k;
    }

    lemma {:induction false} BitsInUse(iter: nat, a: nat, b: nat)
      requires Valid() && iter <= size / 8 && b <= 8 && forall k: nat :: a <= k < b ==> Bit(k, bytes[iter])
      ensures InUse(Used(), 8 * iter + a, 8 * iter + b)
    {
      hide Bit, Used;
      forall i: nat | 8 * iter + a <= i < 8 * iter + b ensures i in Used() {
        BitIs(iter, i - 8 * iter);
      }
    }

    lemma {:induction false} NotLast(iter: nat, from: nat)
      requires Valid() && iter <= size / 8 && from < 8
      ensures InUse(Used(), 8 * iter + from, 8 * iter + 8) ==> iter < size / 8
      ensures InUse(Used(), 8 * iter, 8 * iter + 8) ==> iter < size / 8
    {
      hide Used;
      if 8 * iter + 7 in Used() {
        assert 8 * iter + 7 < size;
      }
    }

    /** A full byte has all its indices in use. */
    lemma {:induction false} FullIsInUse(iter: nat)
      requires Valid() && iter <= size / 8
      ensures AllOnes(bytes[iter]) <==> InUse(Used(), 8 * iter, 8 * iter + 8)
    {
      hide Bit, Used;
      if AllOnes(bytes[iter]) {
        BitsInUse(iter, 0, 8);
      } else {
        var k: nat :| k < 8 && !Bit(k, bytes[iter]);
        BitIs(iter, k);
      }
    }

    lemma {:induction false} Found(iter: nat, from: nat, at: nat)
      requires Valid() && iter <= size / 8 && at < 8 && !Bit(at, bytes[iter])
      requires forall k :: from <= k < at ==> Bit(k, bytes[iter])
      ensures 8 * iter + at !in Used() && InUse(Used(), 8 * iter + from, 8 * iter + at)
    {
      hide Bit, Used, InUse;
      BitIs(iter, at);
      BitsInUse(iter, from, at);
    }
  }
}
