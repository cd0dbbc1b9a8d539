/** Finite sums over index ranges and over lists of distinct keys. */
module Sums {
  import opened Sequences

  function SumTo(n: nat, f: int -> int): int {
    if n == 0 then 0 else SumTo(n - 1, f) + f(n - 1)
  }

  lemma {:induction false} SumToSame(n: nat, f: int -> int, g: int -> int)
    requires forall i :: 0 <= i < n ==> f(i) == g(i)
    ensures SumTo(n, f) == SumTo(n, g)
  {
    if n > 0 {
      SumToSame(n - 1, f, g);
    }
  }

  lemma {:induction false} SumToPlus(n: nat, f: int -> int, g: int -> int, h: int -> int)
    requires forall i :: 0 <= i < n ==> h(i) == f(i) + g(i)
    ensures SumTo(n, h) == SumTo(n, f) + SumTo(n, g)
  {
    if n > 0 {
      SumToPlus(n - 1, f, g, h);
    }
  }

  function Sum<K>(s: seq<K>, f: K -> int): int {
    if s == [] then 0 else f(s[0]) + Sum(s[1..], f)
  }

  lemma {:induction false} SumSame<K>(s: seq<K>, f: K -> int, g: K -> int)
    requires forall i :: 0 <= i < |s| ==> f(s[i]) == g(s[i])
    ensures Sum(s, f) == Sum(s, g)
  {
    if s != [] {
      assert forall i :: 0 <= i < |s[1..]| ==> s[1..][i] == s[i + 1];
      SumSame(s[1..], f, g);
    }
  }

  lemma {:induction false} SumPlus<K>(s: seq<K>, f: K -> int, g: K -> int, h: K -> int)
    requires forall i :: 0 <= i < |s| ==> h(s[i]) == f(s[i]) + g(s[i])
    ensures Sum(s, h) == Sum(s, f) + Sum(s, g)
  {
    if s != [] {
      assert forall i :: 0 <= i < |s[1..]| ==> s[1..][i] == s[i + 1];
      SumPlus(s[1..], f, g, h);
    }
  }

  lemma {:induction false} SumZero<K>(s: seq<K>, f: K -> int)
    requires forall i :: 0 <= i < |s| ==> f(s[i]) == 0
    ensures Sum(s, f) == 0
  {
    if s != [] {
      assert forall i :: 0 <= i < |s[1..]| ==> s[1..][i] == s[i + 1];
      SumZero(s[1..], f);
    }
  }

  /** A sum of non-negative terms vanishes exactly when all terms do. */
  lemma {:induction false} SumNonNegative<K>(s: seq<K>, f: K -> int)
    requires forall i :: 0 <= i < |s| ==> f(s[i]) >= 0
    ensures Sum(s, f) >= 0
    ensures Sum(s, f) == 0 <==> forall i :: 0 <= i < |s| ==> f(s[i]) == 0
  {
    if s != [] {
      assert forall i :: 0 <= i < |s[1..]| ==> s[1..][i] == s[i + 1];
      SumNonNegative(s[1..], f);
      if Sum(s, f) == 0 {
        forall i | 0 <= i < |s| ensures f(s[i]) == 0 {
          assert i > 0 ==> s[i] == s[1..][i - 1];
        }
      } else if f(s[0]) == 0 {
        var i :| 0 <= i < |s[1..]| && f(s[1..][i]) != 0;
        assert f(s[i + 1]) != 0;
      }
    }
  }

  /** Changing one term changes the sum by as much. */
  lemma {:induction false} SumChange<K>(s: seq<K>, k: K, f: K -> int, g: K -> int)
    requires Distinct(s) && forall i :: 0 <= i < |s| && s[i] != k ==> f(s[i]) == g(s[i])
    ensures Sum(s, f) == Sum(s, g) + if k in s then f(k) - g(k) else 0
  {
    if s != [] {
      assert forall i :: 0 <= i < |s[1..]| ==> s[1..][i] == s[i + 1];
      SumChange(s[1..], k, f, g);
      assert k in s <==> k == s[0] || k in s[1..];
    }
  }

  /** The one non-zero term of a sum. */
  lemma {:induction false} SumSingle<K>(s: seq<K>, k: K, f: K -> int)
    requires Distinct(s) && k in s && forall i :: 0 <= i < |s| && s[i] != k ==> f(s[i]) == 0
    ensures Sum(s, f) == f(k)
  {
    SumChange(s, k, f, _ => 0);
    SumZero(s, _ => 0);
  }

  /** The column sum of a table with the rows `s`. */
  function SumAt<K>(s: seq<K>, f: (K, int) -> int, i: int): int {
    Sum(s, a => f(a, i))
  }

  function RowTo<K>(n: nat, f: (K, int) -> int, a: K): int {
    SumTo(n, i => f(a, i))
  }

  lemma {:induction false} SumSwap<K>(s: seq<K>, n: nat, f: (K, int) -> int)
    ensures Sum(s, a => RowTo(n, f, a)) == SumTo(n, i => SumAt(s, f, i))
  {
    if n == 0 {
      SumZero(s, a => RowTo(n, f, a));
    } else {
      SumSwap(s, n - 1, f);
      SumPlus(s, a => RowTo(n - 1, f, a), a => f(a, n - 1), a => RowTo(n, f, a));
    }
  }

  // ---------- sums over pairs of different indices ----------

  function Row(n: nat, i: int, g: (int, int) -> int): int {
    SumTo(n, j => if i == j then 0 else g(i, j))
  }

  /** All ordered pairs, row by row. */
  function PairSum(n: nat, g: (int, int) -> int): int {
    SumTo(n, i => Row(n, i, g))
  }

  function UpperRow(n: nat, i: int, g: (int, int) -> int): int {
    SumTo(n, j => if i < j then g(i, j) + g(j, i) else 0)
  }

  /** All pairs above the diagonal, each counted in both directions. */
  function UpperSum(n: nat, g: (int, int) -> int): int {
    SumTo(n, i => UpperRow(n, i, g))
  }

  lemma {:induction false} PairSumIsUpper(n: nat, g: (int, int) -> int)
    ensures PairSum(n, g) == UpperSum(n, g)
  {
    if n > 0 {
      var m := n - 1;
      PairSumIsUpper(m, g);
      LastColumn(m, g);
      LastUpperColumn(m, g);
      SumToPlus(m, i => g(i, m), j => g(m, j), i => g(i, m) + g(m, i));
    }
  }

  lemma {:induction false} LastColumn(m: nat, g: (int, int) -> int)
    ensures PairSum(m + 1, g) == PairSum(m, g) + SumTo(m, i => g(i, m)) + SumTo(m, j => g(m, j))
  {
    SumToPlus(m, i => Row(m, i, g), i => g(i, m), i => Row(m + 1, i, g));
    SumToSame(m, j => if m == j then 0 else g(m, j), j => g(m, j));
  }

  lemma {:induction false} LastUpperColumn(m: nat, g: (int, int) -> int)
    ensures UpperSum(m + 1, g) == UpperSum(m, g) + SumTo(m, i => g(i, m) + g(m, i))
  {
    SumToPlus(m, i => UpperRow(m, i, g), i => g(i, m) + g(m, i), i => UpperRow(m + 1, i, g));
    SumToSame(m + 1, j => if m < j then g(m, j) + g(j, m) else 0, j => 0);
    ZeroRow(m + 1);
  }

  lemma {:induction false} ZeroRow(n: nat)
    ensures SumTo(n, j => 0) == 0
  {
    if n > 0 {
      ZeroRow(n - 1);
    }
  }

  /** Summing the transposed function over all ordered pairs gives the same. */
  lemma {:induction false} PairSumTransposed(n: nat, g: (int, int) -> int, h: (int, int) -> int)
    requires forall i, j :: 0 <= i < n && 0 <= j < n ==> h(i, j) == g(j, i)
    ensures PairSum(n, h) == PairSum(n, g)
  {
    PairSumIsUpper(n, g);
    PairSumIsUpper(n, h);
    forall i | 0 <= i < n ensures UpperRow(n, i, h) == UpperRow(n, i, g) {
      SumToSame(n, j => if i < j then h(i, j) + h(j, i) else 0, j => if i < j then g(i, j) + g(j, i) else 0);
    }
    SumToSame(n, i => UpperRow(n, i, h), i => UpperRow(n, i, g));
  }

  lemma {:induction false} PairSumSame(n: nat, g: (int, int) -> int, h: (int, int) -> int)
    requires forall i, j :: 0 <= i < n && 0 <= j < n && i != j ==> h(i, j) == g(i, j)
    ensures PairSum(n, h) == PairSum(n, g)
  {
    forall i | 0 <= i < n ensures Row(n, i, h) == Row(n, i, g) {
      SumToSame(n, j => if i == j then 0 else h(i, j), j => if i == j then 0 else g(i, j));
    }
    SumToSame(n, i => Row(n, i, h), i => Row(n, i, g));
  }

  function Of<K>(f: (K, int, int) -> int, a: K): (int, int) -> int {
    (i, j) => f(a, i, j)
  }

  function ColumnAt<K>(s: seq<K>, f: (K, int, int) -> int, i: int, j: int): int {
    Sum(s, a => f(a, i, j))
  }

  function Columns<K>(s: seq<K>, f: (K, int, int) -> int): (int, int) -> int {
    (i, j) => ColumnAt(s, f, i, j)
  }

  function OffDiagonal<K>(f: (K, int, int) -> int, i: int): (K, int) -> int {
    (a, j) => if i == j then 0 else f(a, i, j)
  }

  lemma {:induction false} OffDiagonalRow<K>(n: nat, i: int, f: (K, int, int) -> int, a: K)
    ensures Row(n, i, Of(f, a)) == RowTo(n, OffDiagonal(f, i), a)
  {
    var g, h := Of(f, a), OffDiagonal(f, i);
    forall j | 0 <= j < n ensures (if i == j then 0 else g(i, j)) == h(a, j) {
      assert g(i, j) == f(a, i, j);
    }
    SumToSame(n, j => if i == j then 0 else g(i, j), j => h(a, j));
  }

  lemma {:induction false} RowSwap<K>(s: seq<K>, n: nat, i: int, f: (K, int, int) -> int)
    ensures Sum(s, a => Row(n, i, Of(f, a))) == Row(n, i, Columns(s, f))
  {
    var g := OffDiagonal(f, i);
    SumSwap(s, n, g);
    forall k | 0 <= k < |s| ensures Row(n, i, Of(f, s[k])) == RowTo(n, g, s[k]) {
      OffDiagonalRow(n, i, f, s[k]);
    }
    SumSame(s, a => Row(n, i, Of(f, a)), a => RowTo(n, g, a));
    forall j | 0 <= j < n ensures SumAt(s, g, j) == if i == j then 0 else Columns(s, f)(i, j) {
      if i == j {
        SumZero(s, a => g(a, j));
      } else {
        SumSame(s, a => g(a, j), a => f(a, i, j));
        assert Columns(s, f)(i, j) == ColumnAt(s, f, i, j);
      }
    }
    SumToSame(n, j => SumAt(s, g, j), j => if i == j then 0 else Columns(s, f)(i, j));
  }

  function RowsOf<K>(n: nat, f: (K, int, int) -> int): (K, int) -> int {
    (a, i) => Row(n, i, Of(f, a))
  }

  lemma {:induction false} SumPairSwap<K>(s: seq<K>, n: nat, f: (K, int, int) -> int)
    ensures Sum(s, a => PairSum(n, Of(f, a))) == PairSum(n, Columns(s, f))
  {
    var rows := RowsOf(n, f);
    SumSwap(s, n, rows);
    forall k | 0 <= k < |s| ensures PairSum(n, Of(f, s[k])) == RowTo(n, rows, s[k]) {
      SumToSame(n, i => Row(n, i, Of(f, s[k])), i => rows(s[k], i));
    }
    SumSame(s, a => PairSum(n, Of(f, a)), a => RowTo(n, rows, a));
    forall i | 0 <= i < n ensures SumAt(s, rows, i) == Row(n, i, Columns(s, f)) {
      RowSwap(s, n, i, f);
      SumSame(s, a => rows(a, i), a => Row(n, i, Of(f, a)));
    }
    SumToSame(n, i => SumAt(s, rows, i), i => Row(n, i, Columns(s, f)));
  }

  lemma {:induction false} SumToNonNegative(n: nat, f: int -> int)
    requires forall i :: 0 <= i < n ==> f(i) >= 0
    ensures SumTo(n, f) >= 0
  {
    if n > 0 {
      SumToNonNegative(n - 1, f);
    }
  }

  lemma {:induction false} SumToPositive(n: nat, f: int -> int)
    requires forall i :: 0 <= i < n ==> f(i) >= 0
    ensures SumTo(n, f) > 0 <==> exists i :: 0 <= i < n && f(i) > 0
  {
    if n > 0 {
      SumToPositive(n - 1, f);
      SumToNonNegative(n - 1, f);
      if f(n - 1) > 0 {
        assert 0 <= n - 1 < n && f(n - 1) > 0;
      }
    }
  }

  lemma {:induction false} RowPositive(n: nat, i: int, g: (int, int) -> int)
    requires forall j :: 0 <= j < n ==> g(i, j) >= 0
    ensures Row(n, i, g) >= 0
    ensures Row(n, i, g) > 0 <==> exists j :: 0 <= j < n && i != j && g(i, j) > 0
  {
    var f := j => if i == j then 0 else g(i, j);
    forall j | 0 <= j < n && i != j ensures f(j) == g(i, j) {
    }
    SumToNonNegative(n, f);
    SumToPositive(n, f);
    if j :| 0 <= j < n && f(j) > 0 {
      assert i != j && g(i, j) > 0;
    }
  }

  lemma {:induction false} PairSumPositive(n: nat, g: (int, int) -> int)
    requires forall i, j :: 0 <= i < n && 0 <= j < n ==> g(i, j) >= 0
    ensures PairSum(n, g) > 0 <==> exists i, j :: 0 <= i < n && 0 <= j < n && i != j && g(i, j) > 0
  {
    var rows := i => Row(n, i, g);
    forall i | 0 <= i < n ensures rows(i) >= 0 && (rows(i) > 0 <==> exists j :: 0 <= j < n && i != j && g(i, j) > 0) {
      RowPositive(n, i, g);
    }
    SumToPositive(n, rows);
    if i :| 0 <= i < n && rows(i) > 0 {
      var j :| 0 <= j < n && i != j && g(i, j) > 0;
    }
    if i, j :| 0 <= i < n && 0 <= j < n && i != j && g(i, j) > 0 {
      assert rows(i) > 0;
    }
  }

  lemma {:induction false} PairSumNonNegative(n: nat, g: (int, int) -> int)
    requires forall i, j :: 0 <= i < n && 0 <= j < n ==> g(i, j) >= 0
    ensures PairSum(n, g) >= 0
  {
    forall i | 0 <= i < n ensures Row(n, i, g) >= 0 {
      SumToNonNegative(n, j => if i == j then 0 else g(i, j));
    }
    SumToNonNegative(n, i => Row(n, i, g));
  }

  lemma {:induction false} SumToScale(n: nat, w: int, f: int -> int, g: int -> int)
    requires forall i :: 0 <= i < n ==> g(i) == w * f(i)
    ensures SumTo(n, g) == w * SumTo(n, f)
  {
    if n > 0 {
      SumToScale(n - 1, w, f, g);
      assert w * SumTo(n, f) == w * SumTo(n - 1, f) + w * f(n - 1);
    }
  }

  lemma {:induction false} PairSumScale(n: nat, w: int, f: (int, int) -> int, g: (int, int) -> int)
    requires forall i, j :: 0 <= i < n && 0 <= j < n && i != j ==> g(i, j) == w * f(i, j)
    ensures PairSum(n, g) == w * PairSum(n, f)
  {
    forall i | 0 <= i < n ensures Row(n, i, g) == w * Row(n, i, f) {
      SumToScale(n, w, j => if i == j then 0 else f(i, j), j => if i == j then 0 else g(i, j));
    }
    SumToScale(n, w, i => Row(n, i, f), i => Row(n, i, g));
  }

  /** A column with one non-zero entry. */
  lemma {:induction false} ColumnSingle<K>(s: seq<K>, k: K, f: (K, int, int) -> int, i: int, j: int)
    requires Distinct(s) && k in s && forall a :: a in s && a != k ==> f(a, i, j) == 0
    ensures Columns(s, f)(i, j) == f(k, i, j)
  {
    SumSingle(s, k, a => f(a, i, j));
    assert Columns(s, f)(i, j) == ColumnAt(s, f, i, j);
  }

  lemma {:induction false} SumAtSingle<K>(s: seq<K>, k: K, f: (K, int) -> int, i: int)
    requires Distinct(s) && k in s && forall a :: a in s && a != k ==> f(a, i) == 0
    ensures SumAt(s, f, i) == f(k, i)
  {
    SumSingle(s, k, a => f(a, i));
  }
}
