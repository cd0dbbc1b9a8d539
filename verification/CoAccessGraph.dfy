/** The planner's graph as a function of the transactions alone. */
module CoAccessGraph {
  import opened Sequences
  import opened Sums

  // How often keys are accessed and co-accessed, and the load this puts on each coordinator when the
  // keys are placed by `home`.

  type Key = int
  type Txn = seq<Key>

  const CROSS_TXN_WEIGHT := 50

  predicate Is(t: Txn, i: int, a: Key) {
    0 <= i < |t| && t[i] == a
  }

  /** Accesses to `a`, and ordered co-accesses of `a` and `b`, in one transaction. */
  function HotIn(t: Txn, a: Key): int {
    SumTo(|t|, i => if Is(t, i, a) then 1 else 0)
  }

  function Both(t: Txn, a: Key, b: Key): (int, int) -> int {
    (i, j) => if Is(t, i, a) && Is(t, j, b) then 1 else 0
  }

  function CoIn(t: Txn, a: Key, b: Key): int {
    PairSum(|t|, Both(t, a, b))
  }

  function Weight(home: Key -> int, a: Key, b: Key): int {
    if home(a) == home(b) then 0 else CROSS_TXN_WEIGHT
  }

  /** The `i`-th access of `t` is to a key on `c`. */
  predicate Lives(t: Txn, home: Key -> int, i: int, c: int) {
    0 <= i < |t| && home(t[i]) == c
  }

  /** An ordered pair of accesses as a charge to coordinator `c`: the weight of the edge, if the
      first key lives there. */
  function ChargeTo(t: Txn, home: Key -> int, c: int): (int, int) -> int {
    (i, j) => PairCharge(t, home, c, i, j)
  }

  function PairCharge(t: Txn, home: Key -> int, c: int, i: int, j: int): int {
    if Lives(t, home, i, c) && 0 <= j < |t| then Weight(home, t[i], t[j]) else 0
  }

  /** Where the access itself is charged: a transaction with one key never learns the key's home
      and charges coordinator 0. */
  function AccessHome(t: Txn, home: Key -> int, i: int): int {
    if 0 <= i < |t| && |t| >= 2 then home(t[i]) else 0
  }

  /** What one transaction adds to the load of `c`: one for each access, and for each pair of
      accesses the edge weight on both ends. */
  function LoadIn(t: Txn, home: Key -> int, c: int): int {
    SumTo(|t|, i => if AccessHome(t, home, i) == c then 1 else 0) + UpperSum(|t|, ChargeTo(t, home, c))
  }

  function Hot(h: seq<Txn>, a: Key): int {
    if h == [] then 0 else Hot(h[..|h| - 1], a) + HotIn(h[|h| - 1], a)
  }

  function Co(h: seq<Txn>, a: Key, b: Key): int {
    if h == [] then 0 else Co(h[..|h| - 1], a, b) + CoIn(h[|h| - 1], a, b)
  }

  function Degree(h: seq<Txn>, home: Key -> int, a: Key, b: Key): int {
    if home(a) == home(b) then 0 else CROSS_TXN_WEIGHT * Co(h, a, b)
  }

  function Load(h: seq<Txn>, home: Key -> int, c: int): int {
    if h == [] then 0 else Load(h[..|h| - 1], home, c) + LoadIn(h[|h| - 1], home, c)
  }

  /** The load read off the graph: the accesses to each key on `c` and the edges leaving it. */
  function KeyLoad(keys: seq<Key>, h: seq<Txn>, home: Key -> int, c: int, a: Key): int {
    if home(a) == c then Hot(h, a) + Sum(keys, Degrees(h, home, a)) else 0
  }

  function GraphLoad(keys: seq<Key>, h: seq<Txn>, home: Key -> int, c: int): int {
    Sum(keys, a => KeyLoad(keys, h, home, c, a))
  }

  ghost predicate KeysIn(t: Txn, keys: seq<Key>) {
    forall i :: 0 <= i < |t| ==> t[i] in keys
  }

  ghost predicate Covers(keys: seq<Key>, h: seq<Txn>) {
    Distinct(keys) && forall k :: 0 <= k < |h| ==> KeysIn(h[k], keys)
  }

  // ---------- edges are symmetric ----------

  lemma {:induction false} CoInSymmetric(t: Txn, a: Key, b: Key)
    ensures CoIn(t, a, b) == CoIn(t, b, a) >= 0
  {
    PairSumTransposed(|t|, Both(t, a, b), Both(t, b, a));
    var g := Both(t, a, b);
    forall i, j | 0 <= i < |t| && 0 <= j < |t| ensures g(i, j) >= 0 {
    }
    PairSumNonNegative(|t|, g);
  }

  lemma {:induction false} DegreesSymmetric(h: seq<Txn>, home: Key -> int, a: Key, b: Key)
    ensures Co(h, a, b) == Co(h, b, a) >= 0
    ensures Degree(h, home, a, b) == Degree(h, home, b, a) >= 0
  {
    if h != [] {
      DegreesSymmetric(h[..|h| - 1], home, a, b);
      CoInSymmetric(h[|h| - 1], a, b);
    }
  }

  /** The two keys are accessed together in `t`. */
  ghost predicate Together(t: Txn, a: Key, b: Key) {
    exists i, j :: i != j && Is(t, i, a) && Is(t, j, b)
  }

  ghost predicate EverTogether(h: seq<Txn>, a: Key, b: Key) {
    exists k :: 0 <= k < |h| && Together(h[k], a, b)
  }

  lemma {:induction false} CoInPositive(t: Txn, a: Key, b: Key)
    ensures CoIn(t, a, b) > 0 <==> Together(t, a, b)
  {
    var g := Both(t, a, b);
    forall i, j ensures g(i, j) == if Is(t, i, a) && Is(t, j, b) then 1 else 0 {
    }
    PairSumPositive(|t|, g);
    if i, j :| i != j && Is(t, i, a) && Is(t, j, b) {
      assert g(i, j) > 0;
    }
    if i, j :| 0 <= i < |t| && 0 <= j < |t| && i != j && g(i, j) > 0 {
      assert Is(t, i, a) && Is(t, j, b);
    }
  }

  /** The graph has an edge between two keys exactly when some transaction accesses both. */
  lemma {:induction false} CoPositive(h: seq<Txn>, a: Key, b: Key)
    ensures Co(h, a, b) > 0 <==> EverTogether(h, a, b)
  {
    if h != [] {
      var h0, t := h[..|h| - 1], h[|h| - 1];
      CoPositive(h0, a, b);
      CoInPositive(t, a, b);
      CoInSymmetric(t, a, b);
      DegreesSymmetric(h0, _ => 0, a, b);
      if EverTogether(h0, a, b) {
        var k :| 0 <= k < |h0| && Together(h0[k], a, b);
        assert Together(h[k], a, b);
      }
      if EverTogether(h, a, b) {
        var k :| 0 <= k < |h| && Together(h[k], a, b);
        assert k < |h0| ==> Together(h0[k], a, b);
      }
    }
  }

  // ---------- one transaction: its charges are the graph's ----------

  function AccessAt(t: Txn, home: Key -> int, c: int, a: Key, i: int): int {
    if Is(t, i, a) && home(a) == c then 1 else 0
  }

  function Access(t: Txn, home: Key -> int, c: int): (Key, int) -> int {
    (a, i) => AccessAt(t, home, c, a, i)
  }

  function KeyAccesses(t: Txn, home: Key -> int, c: int, a: Key): int {
    if home(a) == c then HotIn(t, a) else 0
  }

  lemma {:induction false} AccessRow(t: Txn, home: Key -> int, c: int, a: Key)
    ensures RowTo(|t|, Access(t, home, c), a) == KeyAccesses(t, home, c, a)
  {
    var f := Access(t, home, c);
    if home(a) == c {
      SumToSame(|t|, i => if Is(t, i, a) then 1 else 0, i => f(a, i));
    } else {
      forall i ensures f(a, i) == 0 {
      }
      SumToSame(|t|, i => f(a, i), i => 0);
      ZeroRow(|t|);
    }
  }

  lemma {:induction false} AccessColumn(keys: seq<Key>, t: Txn, home: Key -> int, c: int, i: int)
    requires Distinct(keys) && 0 <= i < |t| && t[i] in keys
    ensures SumAt(keys, Access(t, home, c), i) == if Lives(t, home, i, c) then 1 else 0
  {
    var f := Access(t, home, c);
    forall a | a in keys ensures f(a, i) == AccessAt(t, home, c, a, i) {
    }
    SumAtSingle(keys, t[i], f, i);
  }

  /** The accesses of `t` to keys on `c`, counted key by key. */
  lemma {:induction false} AccessesByKey(keys: seq<Key>, t: Txn, home: Key -> int, c: int)
    requires Distinct(keys) && KeysIn(t, keys)
    ensures Sum(keys, a => KeyAccesses(t, home, c, a)) == SumTo(|t|, i => if Lives(t, home, i, c) then 1 else 0)
  {
    var f := Access(t, home, c);
    forall k | 0 <= k < |keys| ensures KeyAccesses(t, home, c, keys[k]) == RowTo(|t|, f, keys[k]) {
      AccessRow(t, home, c, keys[k]);
    }
    SumSame(keys, a => KeyAccesses(t, home, c, a), a => RowTo(|t|, f, a));
    SumSwap(keys, |t|, f);
    forall i | 0 <= i < |t| ensures SumAt(keys, f, i) == if Lives(t, home, i, c) then 1 else 0 {
      AccessColumn(keys, t, home, c, i);
    }
    SumToSame(|t|, i => SumAt(keys, f, i), i => if Lives(t, home, i, c) then 1 else 0);
  }

  function DegreeIn(t: Txn, home: Key -> int, a: Key, b: Key): int {
    Weight(home, a, b) * CoIn(t, a, b)
  }

  /** One ordered pair of accesses as a contribution to the edge from `a`, if `a` lives on `c`. */
  function EdgeFrom(t: Txn, home: Key -> int, c: int, a: Key): (Key, int, int) -> int {
    (b, i, j) => EdgeAt(t, home, c, a, b, i, j)
  }

  function EdgeAt(t: Txn, home: Key -> int, c: int, a: Key, b: Key, i: int, j: int): int {
    if home(a) == c && Is(t, i, a) && Is(t, j, b) then Weight(home, a, b) else 0
  }

  function ChargeFrom(t: Txn, home: Key -> int, c: int): (Key, int, int) -> int {
    (a, i, j) => ChargeAt(t, home, c, a, i, j)
  }

  function ChargeAt(t: Txn, home: Key -> int, c: int, a: Key, i: int, j: int): int {
    if home(a) == c && Is(t, i, a) && 0 <= j < |t| then Weight(home, a, t[j]) else 0
  }

  lemma {:induction false} EdgeSum(t: Txn, home: Key -> int, c: int, a: Key, b: Key)
    ensures PairSum(|t|, Of(EdgeFrom(t, home, c, a), b)) == if home(a) == c then DegreeIn(t, home, a, b) else 0
  {
    var w := if home(a) == c then Weight(home, a, b) else 0;
    var f, g := Both(t, a, b), Of(EdgeFrom(t, home, c, a), b);
    forall i, j ensures g(i, j) == w * f(i, j) {
      assert g(i, j) == EdgeFrom(t, home, c, a)(b, i, j);
    }
    PairSumScale(|t|, w, f, g);
  }

  lemma {:induction false} EdgeColumn(keys: seq<Key>, t: Txn, home: Key -> int, c: int, a: Key, i: int, j: int)
    requires Distinct(keys) && 0 <= j < |t| && t[j] in keys
    ensures Columns(keys, EdgeFrom(t, home, c, a))(i, j) == ChargeFrom(t, home, c)(a, i, j)
  {
    var f := EdgeFrom(t, home, c, a);
    forall b | b in keys ensures f(b, i, j) == EdgeAt(t, home, c, a, b, i, j) {
    }
    ColumnSingle(keys, t[j], f, i, j);
    assert ChargeFrom(t, home, c)(a, i, j) == ChargeAt(t, home, c, a, i, j);
  }

  /** The charges from key `a`, counted edge by edge. */
  lemma {:induction false} ChargesByEdge(keys: seq<Key>, t: Txn, home: Key -> int, c: int, a: Key)
    requires Distinct(keys) && KeysIn(t, keys)
    ensures (if home(a) == c then Sum(keys, b => DegreeIn(t, home, a, b)) else 0)
        == PairSum(|t|, Of(ChargeFrom(t, home, c), a))
  {
    var f := EdgeFrom(t, home, c, a);
    SumPairSwap(keys, |t|, f);
    forall k | 0 <= k < |keys|
      ensures PairSum(|t|, Of(f, keys[k])) == if home(a) == c then DegreeIn(t, home, a, keys[k]) else 0
    {
      EdgeSum(t, home, c, a, keys[k]);
    }
    if home(a) == c {
      SumSame(keys, b => PairSum(|t|, Of(f, b)), b => DegreeIn(t, home, a, b));
    } else {
      SumZero(keys, b => PairSum(|t|, Of(f, b)));
    }
    ColumnsAreCharges(keys, t, home, c, a);
  }

  lemma {:induction false} ColumnsAreCharges(keys: seq<Key>, t: Txn, home: Key -> int, c: int, a: Key)
    requires Distinct(keys) && KeysIn(t, keys)
    ensures PairSum(|t|, Columns(keys, EdgeFrom(t, home, c, a))) == PairSum(|t|, Of(ChargeFrom(t, home, c), a))
  {
    var g, h := Columns(keys, EdgeFrom(t, home, c, a)), Of(ChargeFrom(t, home, c), a);
    forall i, j | 0 <= i < |t| && 0 <= j < |t| && i != j ensures g(i, j) == h(i, j) {
      EdgeColumn(keys, t, home, c, a, i, j);
      assert h(i, j) == ChargeFrom(t, home, c)(a, i, j);
    }
    PairSumSame(|t|, h, g);
  }

  lemma {:induction false} ChargeColumn(keys: seq<Key>, t: Txn, home: Key -> int, c: int, i: int, j: int)
    requires Distinct(keys) && 0 <= i < |t| && 0 <= j < |t| && t[i] in keys
    ensures Columns(keys, ChargeFrom(t, home, c))(i, j) == ChargeTo(t, home, c)(i, j)
  {
    var f := ChargeFrom(t, home, c);
    forall a | a in keys ensures f(a, i, j) == ChargeAt(t, home, c, a, i, j) {
    }
    ColumnSingle(keys, t[i], f, i, j);
    assert ChargeTo(t, home, c)(i, j) == PairCharge(t, home, c, i, j);
  }

  function KeyCharges(keys: seq<Key>, t: Txn, home: Key -> int, c: int, a: Key): int {
    if home(a) == c then Sum(keys, b => DegreeIn(t, home, a, b)) else 0
  }

  /** All edge charges of `t` to `c`, counted by the keys on `c` and the edges leaving them. */
  lemma {:induction false} ChargesByKey(keys: seq<Key>, t: Txn, home: Key -> int, c: int)
    requires Distinct(keys) && KeysIn(t, keys)
    ensures Sum(keys, a => KeyCharges(keys, t, home, c, a)) == PairSum(|t|, ChargeTo(t, home, c))
  {
    var f := ChargeFrom(t, home, c);
    forall k | 0 <= k < |keys| ensures KeyCharges(keys, t, home, c, keys[k]) == PairSum(|t|, Of(f, keys[k])) {
      ChargesByEdge(keys, t, home, c, keys[k]);
    }
    SumSame(keys, a => KeyCharges(keys, t, home, c, a), a => PairSum(|t|, Of(f, a)));
    SumPairSwap(keys, |t|, f);
    var g, h := Columns(keys, f), ChargeTo(t, home, c);
    forall i, j | 0 <= i < |t| && 0 <= j < |t| && i != j ensures g(i, j) == h(i, j) {
      ChargeColumn(keys, t, home, c, i, j);
    }
    PairSumSame(|t|, h, g);
  }

  // ---------- a whole history ----------

  function KeyLoadIn(keys: seq<Key>, t: Txn, home: Key -> int, c: int, a: Key): int {
    KeyAccesses(t, home, c, a) + KeyCharges(keys, t, home, c, a)
  }

  /** How far the charge of a one-key transaction is off its key's home. */
  function Misplaced(t: Txn, home: Key -> int, c: int): int {
    if |t| != 1 then 0 else (if c == 0 then 1 else 0) - (if home(t[0]) == c then 1 else 0)
  }

  function AllMisplaced(h: seq<Txn>, home: Key -> int, c: int): int {
    if h == [] then 0 else AllMisplaced(h[..|h| - 1], home, c) + Misplaced(h[|h| - 1], home, c)
  }

  lemma {:induction false} AccessesCharged(t: Txn, home: Key -> int, c: int)
    ensures SumTo(|t|, i => if AccessHome(t, home, i) == c then 1 else 0)
         == SumTo(|t|, i => if Lives(t, home, i, c) then 1 else 0) + Misplaced(t, home, c)
  {
    var f, g := i => if AccessHome(t, home, i) == c then 1 else 0, i => if Lives(t, home, i, c) then 1 else 0;
    if |t| == 1 {
      assert SumTo(1, f) == SumTo(0, f) + f(0) && SumTo(1, g) == SumTo(0, g) + g(0);
    } else {
      SumToSame(|t|, f, g);
    }
  }

  lemma {:induction false} LoadInByKey(keys: seq<Key>, t: Txn, home: Key -> int, c: int)
    requires Distinct(keys) && KeysIn(t, keys)
    ensures LoadIn(t, home, c) == Sum(keys, a => KeyLoadIn(keys, t, home, c, a)) + Misplaced(t, home, c)
  {
    AccessesCharged(t, home, c);
    AccessesByKey(keys, t, home, c);
    PairSumIsUpper(|t|, ChargeTo(t, home, c));
    ChargesByKey(keys, t, home, c);
    SumPlus(keys, a => KeyAccesses(t, home, c, a), a => KeyCharges(keys, t, home, c, a),
        a => KeyLoadIn(keys, t, home, c, a));
  }

  lemma {:induction false} KeyLoadStep(keys: seq<Key>, h: seq<Txn>, home: Key -> int, c: int, a: Key)
    requires h != []
    ensures KeyLoad(keys, h, home, c, a)
        == KeyLoad(keys, h[..|h| - 1], home, c, a) + KeyLoadIn(keys, h[|h| - 1], home, c, a)
  {
    var h0, t := h[..|h| - 1], h[|h| - 1];
    forall k | 0 <= k < |keys|
      ensures Degree(h, home, a, keys[k]) == Degree(h0, home, a, keys[k]) + DegreeIn(t, home, a, keys[k])
    {
    }
    SumPlus(keys, Degrees(h0, home, a), b => DegreeIn(t, home, a, b), Degrees(h, home, a));
  }

  lemma {:induction false} LoadByKey(keys: seq<Key>, h: seq<Txn>, home: Key -> int, c: int)
    requires Covers(keys, h)
    ensures Load(h, home, c) == GraphLoad(keys, h, home, c) + AllMisplaced(h, home, c)
  {
    if h == [] {
      forall k | 0 <= k < |keys| ensures KeyLoad(keys, h, home, c, keys[k]) == 0 {
        SumZero(keys, Degrees(h, home, keys[k]));
      }
      SumZero(keys, a => KeyLoad(keys, h, home, c, a));
    } else {
      var h0, t := h[..|h| - 1], h[|h| - 1];
      CoversPrefix(keys, h);
      LoadByKey(keys, h0, home, c);
      LoadInByKey(keys, t, home, c);
      forall k | 0 <= k < |keys|
        ensures KeyLoad(keys, h, home, c, keys[k])
            == KeyLoad(keys, h0, home, c, keys[k]) + KeyLoadIn(keys, t, home, c, keys[k])
      {
        KeyLoadStep(keys, h, home, c, keys[k]);
      }
      SumPlus(keys, a => KeyLoad(keys, h0, home, c, a), a => KeyLoadIn(keys, t, home, c, a),
          a => KeyLoad(keys, h, home, c, a));
    }
  }

  lemma {:induction false} CoversPrefix(keys: seq<Key>, h: seq<Txn>)
    requires Covers(keys, h) && h != []
    ensures Covers(keys, h[..|h| - 1]) && KeysIn(h[|h| - 1], keys)
  {
    var h0 := h[..|h| - 1];
    forall k | 0 <= k < |h0| ensures KeysIn(h0[k], keys) {
      assert h0[k] == h[k];
    }
  }

  /** Every one-key transaction accesses a key that really lives on coordinator 0. */
  ghost predicate SinglesAtZero(h: seq<Txn>, home: Key -> int) {
    forall k :: 0 <= k < |h| && |h[k]| == 1 ==> home(h[k][0]) == 0
  }

  lemma {:induction false} MisplacedSign(h: seq<Txn>, home: Key -> int, c: int)
    ensures c != 0 ==> AllMisplaced(h, home, c) <= 0
    ensures SinglesAtZero(h, home) ==> AllMisplaced(h, home, c) == 0
    ensures c != 0 && (exists k :: 0 <= k < |h| && |h[k]| == 1 && home(h[k][0]) == c) ==> AllMisplaced(h, home, c) < 0
  {
    if h != [] {
      var h0, t := h[..|h| - 1], h[|h| - 1];
      MisplacedSign(h0, home, c);
      if SinglesAtZero(h, home) {
        forall k | 0 <= k < |h0| && |h0[k]| == 1 ensures home(h0[k][0]) == 0 {
          assert home(h[k][0]) == 0;
        }
      }
      if k :| 0 <= k < |h| && |h[k]| == 1 && home(h[k][0]) == c {
        if k < |h0| {
          assert h0[k] == h[k];
        }
      }
    }
  }

  /** After any history the load of every coordinator is what the graph says, exactly when no
      one-key transaction accessed a key away from coordinator 0. */
  lemma {:induction false} LoadIsGraphLoad(keys: seq<Key>, h: seq<Txn>, home: Key -> int)
    requires Covers(keys, h)
    ensures (forall c :: Load(h, home, c) == GraphLoad(keys, h, home, c)) <==> SinglesAtZero(h, home)
  {
    if SinglesAtZero(h, home) {
      forall c ensures Load(h, home, c) == GraphLoad(keys, h, home, c) {
        LoadByKey(keys, h, home, c);
        MisplacedSign(h, home, c);
      }
    } else {
      var k :| 0 <= k < |h| && |h[k]| == 1 && home(h[k][0]) != 0;
      var c := home(h[k][0]);
      LoadByKey(keys, h, home, c);
      MisplacedSign(h, home, c);
      assert Load(h, home, c) != GraphLoad(keys, h, home, c);
    }
  }

  // ---------- moving one key ----------

  function Moved(home: Key -> int, k: Key, d: int): Key -> int {
    a => if a == k then d else home(a)
  }

  function ReceiverTerm(h: seq<Txn>, home: Key -> int, k: Key, d: int, b: Key): int {
    if home(b) == d then -Degree(h, home, k, b) else Degree(h, home, k, b)
  }

  function ReceiverTerms(h: seq<Txn>, home: Key -> int, k: Key, d: int): Key -> int {
    b => ReceiverTerm(h, home, k, d, b)
  }

  function Degrees(h: seq<Txn>, home: Key -> int, k: Key): Key -> int {
    b => Degree(h, home, k, b)
  }

  /** What the planner adds to the receiver's load for key `k`. */
  function ReceiverCost(keys: seq<Key>, h: seq<Txn>, home: Key -> int, k: Key, d: int): int {
    if home(k) == d then 0 else Hot(h, k) + Sum(keys, ReceiverTerms(h, home, k, d))
  }

  /** What it adds to the load of coordinator `src` for a move of `k` to `d`. */
  function SenderCost(keys: seq<Key>, h: seq<Txn>, home: Key -> int, k: Key, d: int, src: int): int {
    if home(k) == d then 0
    else if home(k) == src then -Hot(h, k) - Sum(keys, Degrees(h, home, k))
    else -Hot(h, k) + Sum(keys, Degrees(h, home, k))
  }

  /** Co-accesses of `k` with another key that lives where `k` lives now. */
  function NeighbourTerm(h: seq<Txn>, home: Key -> int, k: Key, b: Key): int {
    if b != k && home(b) == home(k) then CROSS_TXN_WEIGHT * Co(h, k, b) else 0
  }

  function NeighbourWeight(keys: seq<Key>, h: seq<Txn>, home: Key -> int, k: Key): int {
    Sum(keys, b => NeighbourTerm(h, home, k, b))
  }

  ghost predicate NoNeighbourAtHome(keys: seq<Key>, h: seq<Txn>, home: Key -> int, k: Key) {
    forall b :: b in keys && b != k && home(b) == home(k) ==> Co(h, k, b) == 0
  }

  /** How the edge from another key `a` on `c` to `k` changes when `k` moves. */
  function EdgeChange(h: seq<Txn>, home: Key -> int, k: Key, d: int, c: int, a: Key): int {
    if a != k && home(a) == c then Degree(h, Moved(home, k, d), a, k) - Degree(h, home, a, k) else 0
  }

  lemma {:induction false} OtherKeyLoad(keys: seq<Key>, h: seq<Txn>, home: Key -> int, k: Key, d: int, c: int, a: Key)
    requires Distinct(keys) && k in keys && a != k
    ensures KeyLoad(keys, h, Moved(home, k, d), c, a) == KeyLoad(keys, h, home, c, a) + EdgeChange(h, home, k, d, c, a)
  {
    var moved := Moved(home, k, d);
    forall i | 0 <= i < |keys| && keys[i] != k ensures Degree(h, moved, a, keys[i]) == Degree(h, home, a, keys[i]) {
    }
    SumChange(keys, k, Degrees(h, moved, a), Degrees(h, home, a));
  }

  function OwnChange(keys: seq<Key>, h: seq<Txn>, home: Key -> int, k: Key, d: int, c: int): int {
    KeyLoad(keys, h, Moved(home, k, d), c, k) - KeyLoad(keys, h, home, c, k)
  }

  function AnyChange(keys: seq<Key>, h: seq<Txn>, home: Key -> int, k: Key, d: int, c: int, a: Key): int {
    if a == k then OwnChange(keys, h, home, k, d, c) else EdgeChange(h, home, k, d, c, a)
  }

  lemma {:induction false} GraphLoadChange(keys: seq<Key>, h: seq<Txn>, home: Key -> int, k: Key, d: int, c: int)
    requires Distinct(keys) && k in keys
    ensures GraphLoad(keys, h, Moved(home, k, d), c)
         == GraphLoad(keys, h, home, c) + OwnChange(keys, h, home, k, d, c)
             + Sum(keys, a => EdgeChange(h, home, k, d, c, a))
  {
    var moved := Moved(home, k, d);
    forall i | 0 <= i < |keys|
      ensures KeyLoad(keys, h, moved, c, keys[i])
          == KeyLoad(keys, h, home, c, keys[i]) + AnyChange(keys, h, home, k, d, c, keys[i])
    {
      if keys[i] != k {
        OtherKeyLoad(keys, h, home, k, d, c, keys[i]);
      }
    }
    SumPlus(keys, a => KeyLoad(keys, h, home, c, a), a => AnyChange(keys, h, home, k, d, c, a),
        a => KeyLoad(keys, h, moved, c, a));
    SumChange(keys, k, a => AnyChange(keys, h, home, k, d, c, a), a => EdgeChange(h, home, k, d, c, a));
  }

  lemma {:induction false} DegreeCases(h: seq<Txn>, home: Key -> int, k: Key, d: int, b: Key)
    requires home(k) != d
    ensures EdgeChange(h, home, k, d, d, b) + Degree(h, Moved(home, k, d), k, b)
         == ReceiverTerm(h, home, k, d, b) + NeighbourTerm(h, home, k, b)
    ensures EdgeChange(h, home, k, d, home(k), b) == NeighbourTerm(h, home, k, b)
    ensures forall c :: c != d && c != home(k) ==> EdgeChange(h, home, k, d, c, b) == 0
  {
    DegreesSymmetric(h, home, k, b);
    DegreesSymmetric(h, Moved(home, k, d), k, b);
  }

  lemma {:induction false} ReceiverChangeAway(keys: seq<Key>, h: seq<Txn>, home: Key -> int, k: Key, d: int)
    requires Distinct(keys) && k in keys && home(k) != d
    ensures GraphLoad(keys, h, Moved(home, k, d), d)
         == GraphLoad(keys, h, home, d) + ReceiverCost(keys, h, home, k, d) + NeighbourWeight(keys, h, home, k)
  {
    var moved := Moved(home, k, d);
    GraphLoadChange(keys, h, home, k, d, d);
    forall i | 0 <= i < |keys|
      ensures EdgeChange(h, home, k, d, d, keys[i]) + Degree(h, moved, k, keys[i])
              == ReceiverTerm(h, home, k, d, keys[i]) + NeighbourTerm(h, home, k, keys[i])
    {
      DegreeCases(h, home, k, d, keys[i]);
    }
    var both := b => ReceiverTerm(h, home, k, d, b) + NeighbourTerm(h, home, k, b);
    SumPlus(keys, b => EdgeChange(h, home, k, d, d, b), Degrees(h, moved, k), both);
    SumPlus(keys, ReceiverTerms(h, home, k, d), b => NeighbourTerm(h, home, k, b), both);
  }

  /** A key moved to where it is changes no load. */
  lemma {:induction false} StaysPut(keys: seq<Key>, h: seq<Txn>, home: Key -> int, k: Key, c: int)
    ensures GraphLoad(keys, h, Moved(home, k, home(k)), c) == GraphLoad(keys, h, home, c)
  {
    var moved := Moved(home, k, home(k));
    forall i | 0 <= i < |keys| ensures KeyLoad(keys, h, moved, c, keys[i]) == KeyLoad(keys, h, home, c, keys[i]) {
      SumSame(keys, Degrees(h, moved, keys[i]), Degrees(h, home, keys[i]));
    }
    SumSame(keys, a => KeyLoad(keys, h, moved, c, a), a => KeyLoad(keys, h, home, c, a));
  }

  /** How the receiver's load changes when `k` moves to `d`, wherever `k` was: by what the planner
      books and, for a key that does move, by the edges to its former neighbours. A key that is at
      `d` already costs nothing. */
  lemma {:induction false} ReceiverChange(keys: seq<Key>, h: seq<Txn>, home: Key -> int, k: Key, d: int)
    requires Distinct(keys) && k in keys
    ensures GraphLoad(keys, h, Moved(home, k, d), d)
         == GraphLoad(keys, h, home, d) + ReceiverCost(keys, h, home, k, d)
             + if home(k) == d then 0 else NeighbourWeight(keys, h, home, k)
  {
    hide GraphLoad, NeighbourWeight;
    if home(k) == d {
      StaysPut(keys, h, home, k, d);
    } else {
      ReceiverChangeAway(keys, h, home, k, d);
    }
  }

  lemma {:induction false} SenderChangeAway(keys: seq<Key>, h: seq<Txn>, home: Key -> int, k: Key, d: int)
    requires Distinct(keys) && k in keys && home(k) != d
    ensures GraphLoad(keys, h, Moved(home, k, d), home(k))
         == GraphLoad(keys, h, home, home(k)) + SenderCost(keys, h, home, k, d, home(k))
             + NeighbourWeight(keys, h, home, k)
  {
    var c := home(k);
    GraphLoadChange(keys, h, home, k, d, c);
    forall i | 0 <= i < |keys| ensures EdgeChange(h, home, k, d, c, keys[i]) == NeighbourTerm(h, home, k, keys[i]) {
      DegreeCases(h, home, k, d, keys[i]);
    }
    SumSame(keys, b => EdgeChange(h, home, k, d, c, b), b => NeighbourTerm(h, home, k, b));
  }

  lemma {:induction false} OthersUnchanged(keys: seq<Key>, h: seq<Txn>, home: Key -> int, k: Key, d: int, c: int)
    requires Distinct(keys) && k in keys && home(k) != d && c != d && c != home(k)
    ensures GraphLoad(keys, h, Moved(home, k, d), c) == GraphLoad(keys, h, home, c)
  {
    GraphLoadChange(keys, h, home, k, d, c);
    forall i | 0 <= i < |keys| ensures EdgeChange(h, home, k, d, c, keys[i]) == 0 {
      DegreeCases(h, home, k, d, keys[i]);
    }
    SumZero(keys, b => EdgeChange(h, home, k, d, c, b));
  }

  /** The same for a sender that is not the destination. A record from a third coordinator changes
      nothing there, but it is booked with its edges, and its accesses are taken off. */
  lemma {:induction false} SenderChange(keys: seq<Key>, h: seq<Txn>, home: Key -> int, k: Key, d: int, src: int)
    requires Distinct(keys) && k in keys && (src == d ==> home(k) == d)
    ensures GraphLoad(keys, h, Moved(home, k, d), src)
         == GraphLoad(keys, h, home, src) + SenderCost(keys, h, home, k, d, src)
             + if home(k) == d then 0
               else if home(k) == src then NeighbourWeight(keys, h, home, k)
               else 2 * Hot(h, k) - KeyLoad(keys, h, home, home(k), k)
  {
    hide GraphLoad, NeighbourWeight;
    if home(k) == d {
      StaysPut(keys, h, home, k, src);
    } else if home(k) == src {
      SenderChangeAway(keys, h, home, k, d);
    } else {
      OthersUnchanged(keys, h, home, k, d, src);
    }
  }

  // ---------- moving several keys ----------

  /** All keys of `ks` at `d`. */
  function MovedAll(home: Key -> int, ks: seq<Key>, d: int): Key -> int {
    if ks == [] then home else Moved(MovedAll(home, ks[..|ks| - 1], d), ks[|ks| - 1], d)
  }

  /** What the planner books for a plan are the costs of its keys, one by one. */
  function ReceiverCosts(keys: seq<Key>, h: seq<Txn>, home: Key -> int, ks: seq<Key>, d: int): int {
    if ks == [] then 0
    else ReceiverCosts(keys, h, home, ks[..|ks| - 1], d) + ReceiverCost(keys, h, home, ks[|ks| - 1], d)
  }

  function SenderCosts(keys: seq<Key>, h: seq<Txn>, home: Key -> int, ks: seq<Key>, d: int, src: int): int {
    if ks == [] then 0
    else SenderCosts(keys, h, home, ks[..|ks| - 1], d, src) + SenderCost(keys, h, home, ks[|ks| - 1], d, src)
  }

  function AwayFrom(home: Key -> int, d: int): Key -> bool {
    a => home(a) != d
  }

  function LivingAt(home: Key -> int, c: int): Key -> bool {
    a => home(a) == c
  }

  /** The weight of the co-accesses of `k` with the chosen keys among `ks`. */
  function Between(h: seq<Txn>, k: Key, ks: seq<Key>, chosen: Key -> bool): int {
    if ks == [] then 0
    else Between(h, k, ks[..|ks| - 1], chosen)
         + if chosen(ks[|ks| - 1]) then CROSS_TXN_WEIGHT * Co(h, k, ks[|ks| - 1]) else 0
  }

  /** The weight of the co-accesses of all pairs of chosen keys of `ks`. */
  function Inside(h: seq<Txn>, ks: seq<Key>, chosen: Key -> bool): int {
    if ks == [] then 0
    else Inside(h, ks[..|ks| - 1], chosen)
         + if chosen(ks[|ks| - 1]) then Between(h, ks[|ks| - 1], ks[..|ks| - 1], chosen) else 0
  }

  /** What the bookings leave out of account, key by key: the edges to former neighbours, and at the
      sender what is booked for keys that never were there. */
  function LeftOut(keys: seq<Key>, h: seq<Txn>, home: Key -> int, ks: seq<Key>, d: int): int {
    if ks == [] then 0
    else LeftOut(keys, h, home, ks[..|ks| - 1], d)
         + if home(ks[|ks| - 1]) == d then 0 else NeighbourWeight(keys, h, home, ks[|ks| - 1])
  }

  function LeftOutAtSender(keys: seq<Key>, h: seq<Txn>, home: Key -> int, ks: seq<Key>, d: int, src: int): int {
    if ks == [] then 0
    else
      var k := ks[|ks| - 1];
      LeftOutAtSender(keys, h, home, ks[..|ks| - 1], d, src)
      + if home(k) == d then 0
        else if home(k) == src then NeighbourWeight(keys, h, home, k)
        else 2 * Hot(h, k) - KeyLoad(keys, h, home, home(k), k)
  }

  /** Co-accesses of `k` count for coordinator `c` when the other key is elsewhere, and against it when
      the other key is there. */
  function Toward(h: seq<Txn>, home: Key -> int, k: Key, c: int, b: Key): int {
    if b == k then 0 else if home(b) == c then -CROSS_TXN_WEIGHT * Co(h, k, b) else CROSS_TXN_WEIGHT * Co(h, k, b)
  }

  function TowardAll(h: seq<Txn>, home: Key -> int, k: Key, c: int): Key -> int {
    b => Toward(h, home, k, c, b)
  }

  lemma {:induction false} ReceiverIsToward(keys: seq<Key>, h: seq<Txn>, home: Key -> int, k: Key, d: int)
    requires home(k) != d
    ensures ReceiverCost(keys, h, home, k, d) + NeighbourWeight(keys, h, home, k)
         == Hot(h, k) + Sum(keys, TowardAll(h, home, k, d))
  {
    SumPlus(keys, ReceiverTerms(h, home, k, d), b => NeighbourTerm(h, home, k, b), TowardAll(h, home, k, d));
  }

  lemma {:induction false} SenderIsToward(keys: seq<Key>, h: seq<Txn>, home: Key -> int, k: Key, d: int)
    requires home(k) != d
    ensures SenderCost(keys, h, home, k, d, home(k)) + NeighbourWeight(keys, h, home, k)
         == -Hot(h, k) - Sum(keys, TowardAll(h, home, k, home(k)))
  {
    SumPlus(keys, TowardAll(h, home, k, home(k)), b => NeighbourTerm(h, home, k, b), Degrees(h, home, k));
  }

  lemma {:induction false} NotMovedAll(home: Key -> int, ks: seq<Key>, d: int, k: Key)
    ensures MovedAll(home, ks, d)(k) == if k in ks then d else home(k)
  {
    if ks != [] {
      NotMovedAll(home, ks[..|ks| - 1], d, k);
    }
  }

  /** Keys that move to `d` turn their sign there. */
  lemma {:induction false} TowardReceiver(keys: seq<Key>, h: seq<Txn>, home: Key -> int, ks: seq<Key>, d: int, k: Key)
    requires Distinct(keys) && Distinct(ks) && k !in ks && forall i :: 0 <= i < |ks| ==> ks[i] in keys
    ensures Sum(keys, TowardAll(h, MovedAll(home, ks, d), k, d))
         == Sum(keys, TowardAll(h, home, k, d)) - 2 * Between(h, k, ks, AwayFrom(home, d))
  {
    if ks != [] {
      var front, b := ks[..|ks| - 1], ks[|ks| - 1];
      hide Co;
      TowardReceiver(keys, h, home, front, d, k);
      NotMovedAll(home, front, d, b);
      SumChange(keys, b, TowardAll(h, MovedAll(home, ks, d), k, d), TowardAll(h, MovedAll(home, front, d), k, d));
    }
  }

  /** And keys that leave `src` turn theirs at `src`. */
  lemma {:induction false} TowardSender(keys: seq<Key>, h: seq<Txn>, home: Key -> int, ks: seq<Key>, d: int,
          src: int, k: Key)
    requires Distinct(keys) && Distinct(ks) && k !in ks && forall i :: 0 <= i < |ks| ==> ks[i] in keys
    requires src != d
    ensures Sum(keys, TowardAll(h, MovedAll(home, ks, d), k, src))
         == Sum(keys, TowardAll(h, home, k, src)) + 2 * Between(h, k, ks, LivingAt(home, src))
  {
    if ks != [] {
      var front, b := ks[..|ks| - 1], ks[|ks| - 1];
      hide Co;
      TowardSender(keys, h, home, front, d, src, k);
      NotMovedAll(home, front, d, b);
      SumChange(keys, b, TowardAll(h, MovedAll(home, ks, d), k, src), TowardAll(h, MovedAll(home, front, d), k, src));
    }
  }

  /** What a plan does to the load of its destination in the graph: what the planner books, and the
      edges to neighbours left behind, less twice the co-accesses within the plan. */
  lemma {:induction false} ReceiverChangeOfPlan(keys: seq<Key>, h: seq<Txn>, home: Key -> int, ks: seq<Key>, d: int)
    requires Distinct(keys) && Distinct(ks) && forall i :: 0 <= i < |ks| ==> ks[i] in keys
    ensures GraphLoad(keys, h, MovedAll(home, ks, d), d)
         == GraphLoad(keys, h, home, d) + ReceiverCosts(keys, h, home, ks, d) + LeftOut(keys, h, home, ks, d)
             - 2 * Inside(h, ks, AwayFrom(home, d))
  {
    hide GraphLoad, NeighbourWeight, ReceiverCost, TowardAll;
    if ks != [] {
      var front, k := ks[..|ks| - 1], ks[|ks| - 1];
      var before := MovedAll(home, front, d);
      ReceiverChangeOfPlan(keys, h, home, front, d);
      NotMovedAll(home, front, d, k);
      ReceiverChange(keys, h, before, k, d);
      if home(k) == d {
        NoReceiverCost(keys, h, before, k, d);
        NoReceiverCost(keys, h, home, k, d);
      } else {
        ReceiverIsToward(keys, h, before, k, d);
        ReceiverIsToward(keys, h, home, k, d);
        TowardReceiver(keys, h, home, front, d, k);
      }
    }
  }

  lemma {:induction false} NoReceiverCost(keys: seq<Key>, h: seq<Txn>, home: Key -> int, k: Key, d: int)
    requires home(k) == d
    ensures ReceiverCost(keys, h, home, k, d) == 0 && forall src :: SenderCost(keys, h, home, k, d, src) == 0
  {
  }

  /** The same for the sender. */
  lemma {:induction false} SenderChangeOfPlan(keys: seq<Key>, h: seq<Txn>, home: Key -> int, ks: seq<Key>, d: int,
          src: int)
    requires Distinct(keys) && Distinct(ks) && (forall i :: 0 <= i < |ks| ==> ks[i] in keys) && src != d
    ensures GraphLoad(keys, h, MovedAll(home, ks, d), src)
         == GraphLoad(keys, h, home, src) + SenderCosts(keys, h, home, ks, d, src)
             + LeftOutAtSender(keys, h, home, ks, d, src) - 2 * Inside(h, ks, LivingAt(home, src))
  {
    hide GraphLoad, NeighbourWeight, SenderCost, TowardAll, KeyLoad;
    if ks != [] {
      var front, k := ks[..|ks| - 1], ks[|ks| - 1];
      var before := MovedAll(home, front, d);
      SenderChangeOfPlan(keys, h, home, front, d, src);
      NotMovedAll(home, front, d, k);
      SenderChange(keys, h, before, k, d, src);
      if home(k) == d {
        NoReceiverCost(keys, h, before, k, d);
        NoReceiverCost(keys, h, home, k, d);
      } else if home(k) == src {
        SenderIsToward(keys, h, before, k, d);
        SenderIsToward(keys, h, home, k, d);
        TowardSender(keys, h, home, front, d, src, k);
      } else {
        ForeignCost(keys, h, before, k, d, src);
        ForeignCost(keys, h, home, k, d, src);
      }
    }
  }

  lemma {:induction false} ForeignCost(keys: seq<Key>, h: seq<Txn>, home: Key -> int, k: Key, d: int, src: int)
    requires home(k) != d && home(k) != src
    ensures SenderCost(keys, h, home, k, d, src) == KeyLoad(keys, h, home, home(k), k) - 2 * Hot(h, k)
  {
  }

  /** The load the planner books for coordinator `c` when it moves `k` to `d`. */
  function BookedLoad(keys: seq<Key>, h: seq<Txn>, home: Key -> int, k: Key, d: int, c: int): int {
    Load(h, home, c)
    + (if c == home(k) then SenderCost(keys, h, home, k, d, home(k)) else 0)
    + (if c == d then ReceiverCost(keys, h, home, k, d) else 0)
  }

  /** How often the key is accessed alone: such an access is charged to coordinator 0 wherever the
      key lives, so it does not move with the key. */
  function Singles(h: seq<Txn>, k: Key): int {
    if h == [] then 0 else Singles(h[..|h| - 1], k) + if h[|h| - 1] == [k] then 1 else 0
  }

  ghost predicate NeverAlone(h: seq<Txn>, k: Key) {
    forall i :: 0 <= i < |h| ==> h[i] != [k]
  }

  lemma {:induction false} SinglesSign(h: seq<Txn>, k: Key)
    ensures Singles(h, k) >= 0 && (Singles(h, k) == 0 <==> NeverAlone(h, k))
  {
    if h != [] {
      var h0 := h[..|h| - 1];
      SinglesSign(h0, k);
      assert forall i :: 0 <= i < |h0| ==> h0[i] == h[i];
    }
  }

  lemma {:induction false} MisplacedMoves(h: seq<Txn>, home: Key -> int, k: Key, d: int, c: int)
    ensures AllMisplaced(h, Moved(home, k, d), c)
         == AllMisplaced(h, home, c) + (if c == home(k) then Singles(h, k) else 0)
             - (if c == d then Singles(h, k) else 0)
  {
    if h != [] {
      var t := h[|h| - 1];
      MisplacedMoves(h[..|h| - 1], home, k, d, c);
      assert |t| == 1 ==> (t == [k] <==> t[0] == k);
    }
  }

  /** What the booking of coordinator `c` falls short of. */
  function Shortfall(keys: seq<Key>, h: seq<Txn>, home: Key -> int, k: Key, d: int, c: int): int {
    (if c == d || c == home(k) then NeighbourWeight(keys, h, home, k) else 0)
    + (if c == home(k) then Singles(h, k) else 0) - (if c == d then Singles(h, k) else 0)
  }

  lemma {:induction false} BookedIsShort(keys: seq<Key>, h: seq<Txn>, home: Key -> int, k: Key, d: int, c: int)
    requires Covers(keys, h) && k in keys && home(k) != d
    ensures Load(h, Moved(home, k, d), c) == BookedLoad(keys, h, home, k, d, c) + Shortfall(keys, h, home, k, d, c)
  {
    LoadByKey(keys, h, home, c);
    LoadByKey(keys, h, Moved(home, k, d), c);
    MisplacedMoves(h, home, k, d, c);
    if c == d {
      ReceiverChange(keys, h, home, k, d);
    } else if c == home(k) {
      SenderChange(keys, h, home, k, d, c);
    } else {
      OthersUnchanged(keys, h, home, k, d, c);
    }
  }

  lemma {:induction false} NeighbourWeightSign(keys: seq<Key>, h: seq<Txn>, home: Key -> int, k: Key)
    ensures NeighbourWeight(keys, h, home, k) == 0 <==> NoNeighbourAtHome(keys, h, home, k)
  {
    var f := b => NeighbourTerm(h, home, k, b);
    forall i | 0 <= i < |keys| ensures f(keys[i]) >= 0 && Co(h, k, keys[i]) >= 0 {
      DegreesSymmetric(h, home, k, keys[i]);
    }
    SumNonNegative(keys, f);
    if NeighbourWeight(keys, h, home, k) == 0 {
      forall b | b in keys && b != k && home(b) == home(k) ensures Co(h, k, b) == 0 {
        var i :| 0 <= i < |keys| && keys[i] == b;
        assert f(keys[i]) == NeighbourTerm(h, home, k, b) == 0;
      }
    } else {
      var i :| 0 <= i < |keys| && f(keys[i]) != 0;
      assert NeighbourTerm(h, home, k, keys[i]) != 0;
    }
  }

  /** The booked loads after a one-key move are those of the graph rebuilt with the key at its new
      place, for every coordinator, exactly when the key was never accessed together with another
      key of its old place, and never alone. */
  lemma {:induction false} MoveIsExact(keys: seq<Key>, h: seq<Txn>, home: Key -> int, k: Key, d: int)
    requires Covers(keys, h) && k in keys && home(k) != d
    ensures (forall c :: Load(h, Moved(home, k, d), c) == BookedLoad(keys, h, home, k, d, c))
            <==> NoNeighbourAtHome(keys, h, home, k) && NeverAlone(h, k)
  {
    NeighbourWeightSign(keys, h, home, k);
    SinglesSign(h, k);
    hide Shortfall;
    forall c
      ensures Load(h, Moved(home, k, d), c) == BookedLoad(keys, h, home, k, d, c) + Shortfall(keys, h, home, k, d, c)
    {
      BookedIsShort(keys, h, home, k, d, c);
    }
    ShortNowhere(keys, h, home, k, d);
    if !(NoNeighbourAtHome(keys, h, home, k) && NeverAlone(h, k)) {
      var c :| Shortfall(keys, h, home, k, d, c) != 0;
      assert Load(h, Moved(home, k, d), c) != BookedLoad(keys, h, home, k, d, c);
    }
  }

  lemma {:induction false} ShortNowhere(keys: seq<Key>, h: seq<Txn>, home: Key -> int, k: Key, d: int)
    requires home(k) != d
    ensures (forall c :: Shortfall(keys, h, home, k, d, c) == 0)
        <==> NeighbourWeight(keys, h, home, k) == 0 && Singles(h, k) == 0
  {
    hide NeighbourWeight, Singles;
    assert Shortfall(keys, h, home, k, d, d) == NeighbourWeight(keys, h, home, k) - Singles(h, k);
    assert Shortfall(keys, h, home, k, d, home(k)) == NeighbourWeight(keys, h, home, k) + Singles(h, k);
  }
}
