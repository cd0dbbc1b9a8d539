/** The comparison contract of the two skip lists: `less` is a strict weak order, and two
    values are the same key when neither is less than the other. */
module Ordering {
  /** Marks the triples for which a proof wants the order's laws. */
  ghost predicate Compare<T>(x: T, y: T, z: T) {
    true
  }

  ghost predicate StrictWeakOrder<T(!new)>(less: (T, T) -> bool) {
    forall x, y, z {:trigger Compare(x, y, z)} ::
      Compare(x, y, z) ==>
        && !less(x, x)
        && (less(x, y) && less(y, z) ==> less(x, z))
        && (less(x, z) ==> less(x, y) || less(y, z))
  }

  predicate Equivalent<T>(less: (T, T) -> bool, x: T, y: T) {
    !less(x, y) && !less(y, x)
  }

  lemma {:induction false} Transitive<T(!new)>(less: (T, T) -> bool, x: T, y: T, z: T)
    requires StrictWeakOrder(less)
    ensures less(x, y) && less(y, z) ==> less(x, z)
    ensures less(x, y) && !less(z, y) ==> less(x, z)
    ensures less(y, z) && !less(y, x) ==> less(x, z)
    ensures !less(x, x)
  {
    assert Compare(x, y, z);
    assert Compare(x, z, y);
    assert Compare(y, x, z);
  }

  ghost predicate Sorted<T>(less: (T, T) -> bool, s: seq<T>) {
    forall i, j :: 0 <= i < j < |s| ==> less(s[i], s[j])
  }

  /** `r` elements of the sorted sequence `s` come before `v`. */
  ghost predicate IsRank<T>(less: (T, T) -> bool, s: seq<T>, v: T, r: nat) {
    && r <= |s|
    && (forall i :: 0 <= i < r ==> less(s[i], v))
    && (forall i :: r <= i < |s| ==> !less(s[i], v))
  }

  ghost predicate Holds<T>(less: (T, T) -> bool, s: seq<T>, v: T) {
    exists i :: 0 <= i < |s| && Equivalent(less, s[i], v)
  }

  /** In a sorted sequence only the element at the rank can be equivalent to the value. */
  lemma {:induction false} HoldsAtRank<T(!new)>(less: (T, T) -> bool, s: seq<T>, v: T, r: nat)
    requires StrictWeakOrder(less) && Sorted(less, s) && IsRank(less, s, v, r)
    ensures Holds(less, s, v) <==> r < |s| && !less(v, s[r])
  {
    if r < |s| && !less(v, s[r]) {
      assert Equivalent(less, s[r], v);
    }
    if Holds(less, s, v) {
      var i :| 0 <= i < |s| && Equivalent(less, s[i], v);
      if r < i {
        Transitive(less, v, s[i], s[r]);
        Transitive(less, s[r], s[i], v);
      }
    }
  }

  /** The number of leading elements that come before `v`. */
  function Rank<T>(less: (T, T) -> bool, s: seq<T>, v: T): (r: nat)
    ensures r <= |s|
  {
    if s == [] || !less(s[0], v) then 0 else 1 + Rank(less, s[1..], v)
  }

  lemma {:induction false} RankOfSorted<T(!new)>(less: (T, T) -> bool, s: seq<T>, v: T)
    requires StrictWeakOrder(less) && Sorted(less, s)
    ensures IsRank(less, s, v, Rank(less, s, v))
  {
    if s != [] && less(s[0], v) {
      RankOfSorted(less, s[1..], v);
    } else {
      forall i | 0 <= i < |s| ensures !less(s[i], v) {
        Transitive(less, s[0], s[i], v);
      }
    }
  }

  lemma {:induction false} RankOfElement<T(!new)>(less: (T, T) -> bool, s: seq<T>, i: nat)
    requires StrictWeakOrder(less) && Sorted(less, s) && i < |s|
    ensures IsRank(less, s, s[i], i)
  {
    forall k | i <= k < |s| ensures !less(s[k], s[i]) {
      Transitive(less, s[k], s[i], s[k]);
      Transitive(less, s[i], s[k], s[i]);
    }
  }

  /** Set insertion on a sorted sequence: nothing changes when the key is already there. */
  ghost function Inserted<T>(less: (T, T) -> bool, s: seq<T>, v: T): (t: seq<T>)
    ensures Holds(less, s, v) ==> t == s
  {
    var r := Rank(less, s, v);
    if Holds(less, s, v) then s else s[..r] + [v] + s[r..]
  }

  lemma {:induction false} RankIsUnique<T>(less: (T, T) -> bool, s: seq<T>, v: T, r: nat, q: nat)
    requires IsRank(less, s, v, r) && IsRank(less, s, v, q)
    ensures r == q
  {
    assert r < |s| ==> (less(s[r], v) <==> r < q);
    assert q < |s| ==> (less(s[q], v) <==> q < r);
  }

  /** Inserting at the rank keeps the sequence strictly sorted. */
  lemma {:induction false} SortedInsert<T(!new)>(less: (T, T) -> bool, s: seq<T>, v: T, r: nat)
    requires StrictWeakOrder(less) && Sorted(less, s) && IsRank(less, s, v, r)
    requires !Holds(less, s, v)
    ensures Sorted(less, s[..r] + [v] + s[r..])
  {
    HoldsAtRank(less, s, v, r);
    var t := s[..r] + [v] + s[r..];
    forall i, j | 0 <= i < j < |t| ensures less(t[i], t[j]) {
      if i == r && j > r + 1 {
        Transitive(less, v, s[r], t[j]);
      }
    }
  }

  /** Deletion of a key from a sorted sequence. */
  ghost function Erased<T>(less: (T, T) -> bool, s: seq<T>, v: T): (t: seq<T>)
    ensures !Holds(less, s, v) ==> t == s
  {
    var r := Rank(less, s, v);
    if Holds(less, s, v) && r < |s| then s[..r] + s[r + 1..] else s
  }

  /** Erasing a key that was not there before its insertion undoes the insertion. */
  lemma {:induction false} EraseUndoesInsert<T(!new)>(less: (T, T) -> bool, s: seq<T>, v: T)
    requires StrictWeakOrder(less) && Sorted(less, s) && !Holds(less, s, v)
    ensures Erased(less, Inserted(less, s, v), v) == s
    ensures Holds(less, Inserted(less, s, v), v) && !Holds(less, Erased(less, Inserted(less, s, v), v), v)
  {
    var r := Rank(less, s, v);
    RankOfSorted(less, s, v);
    SortedInsert(less, s, v, r);
    var t := s[..r] + [v] + s[r..];
    Transitive(less, v, v, v);
    assert t[r] == v && IsRank(less, t, v, r) by {
      forall i | r <= i < |t| ensures !less(t[i], v) {
        assert i > r ==> t[i] == s[i - 1];
      }
    }
    assert Equivalent(less, t[r], v);
    RankOfSorted(less, t, v);
    RankIsUnique(less, t, v, r, Rank(less, t, v));
    assert t[..r] + t[r + 1..] == s;
  }

  // ---------- sequences with repeated keys ----------

  /** No element is greater than a later one. */
  ghost predicate Weak<T>(less: (T, T) -> bool, s: seq<T>) {
    forall i, j :: 0 <= i < j < |s| ==> !less(s[j], s[i])
  }

  /** Everything up to an element that is less than `v` is less than `v`. */
  lemma {:induction false} WeakBelow<T(!new)>(less: (T, T) -> bool, s: seq<T>, i: nat, j: nat, v: T)
    requires StrictWeakOrder(less) && Weak(less, s) && i <= j < |s| && less(s[j], v)
    ensures less(s[i], v)
  {
    if i < j {
      Transitive(less, s[i], s[j], v);
    }
  }

  /** Everything from an element on that is not less than `v` is not less than `v`. */
  lemma {:induction false} WeakFrom<T(!new)>(less: (T, T) -> bool, s: seq<T>, i: nat, j: nat, v: T)
    requires StrictWeakOrder(less) && Weak(less, s) && i <= j < |s| && !less(s[i], v)
    ensures !less(s[j], v)
  {
    if less(s[j], v) {
      WeakBelow(less, s, i, j, v);
    }
  }

  /** `u` elements of `s` are not greater than `v`. */
  ghost predicate IsUpper<T>(less: (T, T) -> bool, s: seq<T>, v: T, u: nat) {
    && u <= |s|
    && (forall i :: 0 <= i < u ==> !less(v, s[i]))
    && (forall i :: u <= i < |s| ==> less(v, s[i]))
  }

  /** The number of leading elements that are not greater than `v`. */
  function Upper<T>(less: (T, T) -> bool, s: seq<T>, v: T): (u: nat)
    ensures u <= |s|
  {
    if s == [] || less(v, s[0]) then 0 else 1 + Upper(less, s[1..], v)
  }

  lemma {:induction false} UpperOfSorted<T(!new)>(less: (T, T) -> bool, s: seq<T>, v: T)
    requires StrictWeakOrder(less) && Sorted(less, s)
    ensures IsUpper(less, s, v, Upper(less, s, v))
  {
    if s != [] && !less(v, s[0]) {
      UpperOfSorted(less, s[1..], v);
    } else {
      forall i | 0 <= i < |s| ensures less(v, s[i]) {
        Transitive(less, v, s[0], s[i]);
      }
    }
  }

  lemma {:induction false} UpperIsUnique<T>(less: (T, T) -> bool, s: seq<T>, v: T, u: nat, w: nat)
    requires IsUpper(less, s, v, u) && IsUpper(less, s, v, w)
    ensures u == w
  {
    assert u < |s| ==> (!less(v, s[u]) <==> u < w);
    assert w < |s| ==> (!less(v, s[w]) <==> w < u);
  }

  /** Putting `v` at its rank, before equivalent elements, keeps the weak order. */
  lemma {:induction false} WeakInsert<T(!new)>(less: (T, T) -> bool, s: seq<T>, v: T, r: nat)
    requires StrictWeakOrder(less) && Weak(less, s) && IsRank(less, s, v, r)
    ensures Weak(less, s[..r] + [v] + s[r..])
    ensures IsRank(less, s[..r] + [v] + s[r..], v, r)
  {
    var t := s[..r] + [v] + s[r..];
    forall i, j | 0 <= i < j < |t| ensures !less(t[j], t[i]) {
      if i < r && j == r {
        Transitive(less, s[i], v, s[i]);
      }
    }
    Transitive(less, v, v, v);
    forall i | r <= i < |t| ensures !less(t[i], v) {
      assert i > r ==> t[i] == s[i - 1];
    }
  }

  /** The elements outside the closed range from `low` to `high`. */
  ghost function ErasedBetween<T>(less: (T, T) -> bool, s: seq<T>, low: T, high: T): (t: seq<T>) {
    s[..Rank(less, s, low)] + s[Upper(less, s, high)..]
  }

  /** Exactly the elements in the range are gone. */
  lemma {:induction false} ErasedBetweenIsRange<T(!new)>(less: (T, T) -> bool, s: seq<T>, low: T, high: T)
    requires StrictWeakOrder(less) && Sorted(less, s) && !less(high, low)
    ensures Rank(less, s, low) <= Upper(less, s, high)
    ensures forall i :: 0 <= i < |s| ==>
              (Rank(less, s, low) <= i < Upper(less, s, high) <==> !less(s[i], low) && !less(high, s[i]))
  {
    RankOfSorted(less, s, low);
    UpperOfSorted(less, s, high);
    var r, u := Rank(less, s, low), Upper(less, s, high);
    if u < r {
      Transitive(less, high, s[u], low);
    }
  }
}
