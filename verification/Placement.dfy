/** Where the replicas of a partition live, and the routing word that records it. */
module Placement {
  import opened Bits
  import opened Counting

  // ---------- cyclic ranges of nodes ----------

  /** The range from `first` to `last`, going round past the last node if need be. */
  predicate InCyclicRange(first: nat, last: nat, c: nat) {
    if last >= first then first <= c && c <= last else c >= first || c <= last
  }

  function HashMaster(p: nat, n: nat): nat
    requires n > 0
  {
    p % n
  }

  /** The partitioner that puts `r` replicas on the master and the nodes after it. */
  predicate HashReplicated(p: nat, n: nat, r: nat, c: nat)
    requires n > 0 && r > 0
  {
    if n == 1 then true
    else
      var first := HashMaster(p, n);
      InCyclicRange(first, (first + r - 1) % n, c)
  }

  function LionMaster(p: nat, n: nat): nat
    requires n > 0
  {
    (p + 1) % n
  }

  function LionFirst(p: nat, n: nat, r: nat): nat
    requires n > 0 && 0 < r <= n
  {
    (LionMaster(p, n) - r + 1 + n) % n
  }

  /** The initial placement: `r` replicas on the master and the nodes before it. */
  predicate LionReplicated(p: nat, n: nat, r: nat, c: nat)
    requires n > 0 && 0 < r <= n
  {
    if n == 1 then true else InCyclicRange(LionFirst(p, n, r), LionMaster(p, n), c)
  }

  predicate LionPair(p: nat, n: nat, c: nat)
    requires n > 0
  {
    n == 1 || c == (p + 1) % n || c == p % n
  }

  lemma {:induction false} MultipleAtLeast(n: nat, d: nat)
    requires d >= 1
    ensures n * d >= n
  {
    if d > 1 {
      MultipleAtLeast(n, d - 1);
      assert n * d == n * (d - 1) + n;
    }
  }

  /** Quotient and remainder are unique. */
  lemma {:induction false} UniqueQuotient(n: nat, q: int, m: nat, q1: int, m1: nat)
    requires m < n && m1 < n && n * q + m == n * q1 + m1
    ensures q == q1 && m == m1
  {
    if q > q1 {
      assert n * (q - q1) == n * q - n * q1;
      MultipleAtLeast(n, q - q1);
    } else if q < q1 {
      assert n * (q1 - q) == n * q1 - n * q;
      MultipleAtLeast(n, q1 - q);
    }
  }

  lemma {:induction false} ModuloIs(x: int, n: nat, q: int, m: nat)
    requires m < n && x == n * q + m
    ensures x % n == m && x / n == q
  {
    assert x == n * (x / n) + x % n;
    UniqueQuotient(n, q, m, x / n, x % n);
  }

  lemma {:induction false} SmallModulo(x: int, n: nat)
    requires n > 0 && 0 <= x + n < 3 * n
    ensures x % n == if x < 0 then x + n else if x < n then x else x - n
  {
    if x < 0 {
      ModuloIs(x, n, -1, x + n);
    } else if x < n {
      ModuloIs(x, n, 0, x);
    } else {
      ModuloIs(x, n, 1, x - n);
    }
  }

  /** A node is a replica exactly when, counted backwards round the ring from the master, it is one
      of the first `r`. */
  lemma {:induction false} LionIsBackwardRange(p: nat, n: nat, r: nat, c: nat)
    requires 0 < r <= n && c < n
    ensures LionReplicated(p, n, r, c) <==> (LionMaster(p, n) - c) % n < r
  {
    var last := LionMaster(p, n);
    SmallModulo(last - r + 1 + n, n);
    SmallModulo(last - c, n);
  }

  /** A node is a hash replica exactly when it is one of the first `r` counted forwards from the master. */
  lemma {:induction false} HashIsForwardRange(p: nat, n: nat, r: nat, c: nat)
    requires 0 < r <= n && c < n
    ensures HashReplicated(p, n, r, c) <==> (c - HashMaster(p, n)) % n < r
  {
    var first := HashMaster(p, n);
    SmallModulo(first + r - 1, n);
    SmallModulo(c - first, n);
  }

  /** With two replicas the general placement is the pair of a node and its successor. */
  lemma {:induction false} LionPairIsTwoReplicas(p: nat, n: nat, c: nat)
    requires n >= 2 && c < n
    ensures LionReplicated(p, n, 2, c) <==> LionPair(p, n, c)
  {
    var m := p % n;
    assert (p + 1) % n == if m + 1 == n then 0 else m + 1 by {
      NextModulo(p, n);
    }
    SmallModulo(LionMaster(p, n) - 2 + 1 + n, n);
  }

  lemma {:induction false} NextModulo(p: nat, n: nat)
    requires n > 0
    ensures (p + 1) % n == if p % n + 1 == n then 0 else p % n + 1
  {
    var q, m := p / n, p % n;
    assert p == n * q + m;
    if m + 1 == n {
      assert p + 1 == n * (q + 1) + 0;
      ModuloIs(p + 1, n, q + 1, 0);
    } else {
      ModuloIs(p + 1, n, q, m + 1);
    }
  }

  // ---------- the two Star placements ----------

  /** The placement that node 0 uses. */
  predicate StarS(p: nat, n: nat, c: nat)
    requires n > 0
  {
    if n == 1 then true
    else
      var master := p % n;
      var secondary := if master == 0 then p % (n - 1) + 1 else 0;
      c == master || c == secondary
  }

  /** The placement that all other nodes use. */
  predicate StarC(p: nat, n: nat, c: nat)
    requires n > 0
  {
    if n == 1 || c == 0 then true
    else if p % n == 0 then c == (p / n) % (n - 1) + 1
    else c == p % n
  }

  /** Multiplying by `m + 1` does not change the remainder by `m`. */
  lemma {:induction false} OneMoreModulo(q: nat, m: nat)
    requires m > 0
    ensures (q * (m + 1)) % m == q % m
  {
    assert q == m * (q / m) + q % m;
    assert q * (m + 1) == m * q + q == m * q + m * (q / m) + q % m == m * (q + q / m) + q % m;
    ModuloIs(q * (m + 1), m, q + q / m, q % m);
  }

  /** Both kinds of nodes agree on where every partition is: on node 0 and on exactly one other node. */
  lemma {:induction false} StarPlacementsAgree(p: nat, n: nat) returns (other: nat)
    requires n >= 2
    ensures 0 < other < n
    ensures forall c: nat :: c < n ==> (StarS(p, n, c) <==> c == 0 || c == other)
    ensures forall c: nat :: c < n ==> (StarC(p, n, c) <==> c == 0 || c == other)
  {
    var q := p / n;
    if p % n == 0 {
      assert p == q * n;
      OneMoreModulo(q, n - 1);
      other := p % (n - 1) + 1;
    } else {
      other := p % n;
    }
  }

  // ---------- the routing word: secondary bits 56 | dynamic id 8 ----------

  /** The nodes marked in the upper part of the word. */
  ghost function Marked(bitvec: nat): set<nat> {
    set k: nat | k < 56 && Mark(bitvec, k)
  }

  ghost function MarkedBelow(bitvec: nat, i: nat): set<nat> {
    set k: nat | k < i && Mark(bitvec, k)
  }

  lemma {:induction false} OneMoreMarked(bitvec: nat, i: nat)
    ensures MarkedBelow(bitvec, i + 1) == MarkedBelow(bitvec, i) + if Mark(bitvec, i) then {i} else {}
    ensures MarkedBelow(bitvec, 0) == {} && MarkedBelow(bitvec, 56) == Marked(bitvec)
  {
  }

  /** Node `k` is marked. */
  predicate Mark(bitvec: nat, k: nat) {
    Bit(8 + k, bitvec)
  }

  class RouterValue {
    var bitvec: nat

    constructor ()
      ensures GetDynamic() == 0 && Secondary() == {}
    {
      bitvec := 0;
      new;
      forall k | 0 <= k < 56 ensures !Mark(bitvec, k) {
        NoBits(8 + k);
      }
      ZeroLow(8);
    }

    function GetDynamic(): nat
      reads this
    {
      GetField(bitvec, 0, 8)
    }

    ghost function Secondary(): set<nat>
      reads this
    {
      Marked(bitvec)
    }

    method SetDynamic(id: nat)
      requires Fits(8, id)
      modifies this
      ensures GetDynamic() == id && Secondary() == old(Secondary())
    {
      hide SetField, GetField;
      SetThenGet(bitvec, 0, 8, id);
      DynamicKeepsMarks(bitvec, id);
      bitvec := SetField(bitvec, 0, 8, id);
    }

    /** The source shifts a 32-bit integer, so the id has to stay below 23. */
    method SetSecondary(id: nat)
      requires id <= 22
      modifies this
      ensures Secondary() == old(Secondary()) + {id} && GetDynamic() == old(GetDynamic())
    {
      MarkOne(bitvec, id);
      bitvec := Or(bitvec, Shl(8, Shl(id, 1)));
    }

    /** Whether a node is marked. */
    predicate CountSecondary(id: nat)
      reads this
    {
      Low(1, Shr(id, GetField(bitvec, 8, 56))) == 1
    }

    /** The set of marked nodes, bit by bit from the lowest. */
    method GetSecondaryArray() returns (ids: set<nat>)
      ensures ids == Secondary()
    {
      hide GetField, Bit;
      ids := {};
      var bits := GetField(bitvec, 8, 56);
      ghost var field := bits;
      ShrNone(field);
      var i := 0;
      while i < 56
        invariant 0 <= i <= 56 && bits == Shr(i, field) && ids == MarkedBelow(bitvec, i)
      {
        BitAt(field, i);
        BitOfField(bitvec, 8, 56, i);
        if bits % 2 == 1 {
          ids := ids + {i};
        }
        OneMoreMarked(bitvec, i);
        ShrNext(i, field);
        bits := bits / 2;
        i := i + 1;
      }
    }

    lemma {:induction false} CountIsMembership(id: nat)
      requires id < 56
      ensures CountSecondary(id) <==> id in Secondary()
    {
      hide GetField, Bit, Low, Shr;
      BitOfField(bitvec, 8, 56, id);
    }
  }

  lemma {:induction false} DynamicKeepsMarks(h: nat, id: nat)
    requires Fits(8, id)
    ensures Marked(SetField(h, 0, 8, id)) == Marked(h)
  {
    hide SetField, Bit;
    forall k | 0 <= k < 56 ensures Mark(SetField(h, 0, 8, id), k) <==> Mark(h, k) {
      SetKeepsOthers(h, 0, 8, id, 8, 56);
      BitOfField(h, 8, 56, k);
      BitOfField(SetField(h, 0, 8, id), 8, 56, k);
    }
  }

  lemma {:induction false} MarkOne(h: nat, id: nat)
    requires id < 56
    ensures Marked(Or(h, Shl(8, Shl(id, 1)))) == Marked(h) + {id}
    ensures GetField(Or(h, Shl(8, Shl(id, 1))), 0, 8) == GetField(h, 0, 8)
  {
    hide Or, Shl, Low, Bit, GetField;
    var g := Or(h, Shl(8, Shl(id, 1)));
    forall k | 0 <= k < 56 ensures Mark(g, k) <==> Mark(h, k) || k == id {
      MarkBit(h, id, k);
    }
    KeepLow(h, Shl(id, 1));
  }

  lemma {:induction false} MarkBit(h: nat, id: nat, k: nat)
    ensures Bit(8 + k, Or(h, Shl(8, Shl(id, 1)))) <==> Bit(8 + k, h) || k == id
  {
    hide Or, Bit;
    OrBits(8 + k, h, Shl(8, Shl(id, 1)));
    BitOfJoin(8 + k, 8, 0, Shl(id, 1));
    BitOfJoin(k, id, 0, 1);
    if k < id {
      NoBits(k);
    } else {
      OneBit(k - id);
    }
  }

  lemma {:induction false} KeepLow(h: nat, x: nat)
    ensures GetField(Or(h, Shl(8, x)), 0, 8) == GetField(h, 0, 8)
  {
    hide Or, Low, Join, Shr;
    SplitWord(8, h);
    OrJoin(8, h, Shr(8, h), x);
    PartsOfJoin(8, h, Or(Shr(8, h), x));
    ShrNone(h);
    ShrNone(Or(h, Shl(8, x)));
  }

  // ---------- the router table ----------

  ghost function Range(a: nat, b: nat): (s: set<nat>)
    ensures forall c :: c in s <==> a <= c < b
    ensures |s| == if a <= b then b - a else 0
  {
    if a < b then Range(a, b - 1) + {b - 1} else {}
  }

  /** The nodes on which the initial placement puts partition `p`. */
  ghost function Replicas(p: nat, n: nat, r: nat): (s: set<nat>)
    requires 0 < r <= n
    ensures forall c :: c in s <==> 0 <= c < n && LionReplicated(p, n, r, c)
  {
    set c: nat | c < n && LionReplicated(p, n, r, c)
  }

  /** The replicas form one range or, going round, two; there are `r` of them, the master included. */
  lemma {:induction false} ReplicasAreRanges(p: nat, n: nat, r: nat)
    requires 0 < r <= n
    ensures var first, last := LionFirst(p, n, r), LionMaster(p, n);
            Replicas(p, n, r) == if first <= last then Range(first, last + 1) else Range(0, last + 1) + Range(first, n)
    ensures |Replicas(p, n, r)| == r && LionMaster(p, n) in Replicas(p, n, r)
  {
    hide Range;
    var first, last := LionFirst(p, n, r), LionMaster(p, n);
    SmallModulo(last - r + 1 + n, n);
    if first <= last {
      assert Replicas(p, n, r) == Range(first, last + 1);
    } else {
      assert Replicas(p, n, r) == Range(0, last + 1) + Range(first, n);
    }
  }

  /** Marks the nodes `a .. b - 1`. */
  method MarkRange(router: RouterValue, a: nat, b: nat)
    requires a <= b <= 23
    modifies router
    ensures router.Secondary() == old(router.Secondary()) + Range(a, b)
    ensures router.GetDynamic() == old(router.GetDynamic())
  {
    hide RouterValue.Secondary, RouterValue.GetDynamic, Range;
    var k := a;
    ghost var was, done := router.Secondary(), Range(a, a);
    EmptyRange(a, was);
    while k < b
      invariant a <= k <= b && done == Range(a, k)
      invariant router.Secondary() == was + done && router.GetDynamic() == old(router.GetDynamic())
    {
      router.SetSecondary(k);
      RangeStep(a, k, was);
      done := done + {k};
      k := k + 1;
    }
  }

  lemma {:induction false} EmptyRange(a: nat, s: set<nat>)
    ensures s + Range(a, a) == s
  {
  }

  lemma {:induction false} RangeStep(a: nat, k: nat, s: set<nat>)
    requires a <= k
    ensures Range(a, k) + {k} == Range(a, k + 1) && s + Range(a, k) + {k} == s + (Range(a, k) + {k})
  {
  }

  /** The routing word of every key of partition `p`. */
  method PartitionRouter(p: nat, n: nat, r: nat) returns (router: RouterValue)
    requires 0 < r <= n <= 23
    ensures fresh(router) && router.GetDynamic() == LionMaster(p, n) && router.Secondary() == Replicas(p, n, r)
  {
    hide Marked, GetField, Fits, LionReplicated, Range, Replicas;
    ReplicasAreRanges(p, n, r);
    var last := (p + 1) % n;
    var first := (last - r + 1 + n) % n;
    router := new RouterValue();
    SmallFits(last);
    router.SetDynamic(last);
    if first <= last {
      MarkRange(router, first, last + 1);
    } else {
      MarkRange(router, 0, last + 1);
      MarkRange(router, first, n);
    }
  }

  lemma {:induction false} SmallFits(v: nat)
    requires v < 256
    ensures Fits(8, v)
  {
    FitsIff(8, v);
    assert Two(8) == 256;
  }

  /** The routing word says what the initial placement says of partition `p`. */
  ghost predicate Routed(router: RouterValue, p: nat, n: nat, r: nat)
    requires 0 < r <= n
    reads router
  {
    router.GetDynamic() == LionMaster(p, n) && router.Secondary() == Replicas(p, n, r)
  }

  function PartitionOf(key: nat, keysPerPartition: nat): nat {
    if keysPerPartition == 0 then 0 else key / keysPerPartition
  }

  /** The keys below `limit` have their routing words. */
  ghost predicate TableRouted(table: map<nat, RouterValue>, limit: nat, keysPerPartition: nat, n: nat, r: nat)
    requires 0 < r <= n
    reads table.Values
  {
    && (forall k :: k in table <==> 0 <= k < limit)
    && forall k :: k in table ==> Routed(table[k], PartitionOf(k, keysPerPartition), n, r)
  }

  /** The loops over partitions and their keys: a key's routing word is that of its partition. */
  method InitRouterTable(partitionNum: nat, keysPerPartition: nat, n: nat, r: nat)
          returns (table: map<nat, RouterValue>)
    requires 0 < r <= n <= 23
    ensures TableRouted(table, partitionNum * keysPerPartition, keysPerPartition, n, r)
  {
    table := map[];
    var j, start := 0, 0;
    while j < partitionNum
      invariant 0 <= j <= partitionNum && start == j * keysPerPartition
      invariant fresh(table.Values) && TableRouted(table, start, keysPerPartition, n, r)
    {
      assert (j + 1) * keysPerPartition == j * keysPerPartition + keysPerPartition;
      table := AddPartition(table, j, start, keysPerPartition, n, r);
      start := start + keysPerPartition;
      j := j + 1;
    }
  }

  lemma {:induction false} PartitionOfKey(i: nat, j: nat, start: nat, keysPerPartition: nat)
    requires start == j * keysPerPartition && start <= i < start + keysPerPartition
    ensures PartitionOf(i, keysPerPartition) == j
  {
    ModuloIs(i, keysPerPartition, j, i - start);
  }

  /** The keys of one partition. */
  method AddPartition(before: map<nat, RouterValue>, j: nat, start: nat, keysPerPartition: nat, n: nat, r: nat)
    returns (table: map<nat, RouterValue>)
    requires 0 < r <= n <= 23 && start == j * keysPerPartition && TableRouted(before, start, keysPerPartition, n, r)
    ensures TableRouted(table, start + keysPerPartition, keysPerPartition, n, r)
    ensures fresh(table.Values - before.Values)
  {
    hide Routed, PartitionOf, Replicas;
    table := before;
    var i := start;
    while i < start + keysPerPartition
      invariant start <= i <= start + keysPerPartition
      invariant TableRouted(table, i, keysPerPartition, n, r) && fresh(table.Values - before.Values)
    {
      PartitionOfKey(i, j, start, keysPerPartition);
      var router := PartitionRouter(j, n, r);
      RoutedNow(router, j, n, r);
      table := table[i := router];
      i := i + 1;
    }
  }

  lemma {:induction false} RoutedNow(router: RouterValue, p: nat, n: nat, r: nat)
    requires 0 < r <= n && router.GetDynamic() == LionMaster(p, n) && router.Secondary() == Replicas(p, n, r)
    ensures Routed(router, p, n, r)
  {
  }
}
