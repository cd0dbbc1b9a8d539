/** The Clay planner: the co-access graph it builds from the transaction history, the clumps it
    finds in it, and the plans it makes. The routing of keys to coordinators is fixed. */
module ClayPlanner {
  import opened ClumpSearch
  import opened CoAccessGraph
  import opened Connectivity
  import opened MovePlans
  import opened Sequences
  import opened Sums

  type Graph = map<Key, map<Key, Edge>>

  function DegreeOf(g: Graph, a: Key, b: Key): int {
    if a in g && b in g[a] then g[a][b].degree else 0
  }

  predicate HasEdge(g: Graph, a: Key, b: Key) {
    a in g && b in g[a]
  }

  // ---------- sums up to the point a nested loop has reached ----------

  /** The ordered pairs of all rows before `i`, and of row `i` before column `j`. */
  function PairsSoFar(n: nat, g: (int, int) -> int, i: nat, j: nat): int {
    SumTo(i, x => Row(n, x, g)) + SumTo(j, y => if i == y then 0 else g(i, y))
  }

  lemma {:induction false} PairsNext(n: nat, g: (int, int) -> int, i: nat, j: nat)
    ensures PairsSoFar(n, g, 0, 0) == 0
    ensures PairsSoFar(n, g, i, j + 1) == PairsSoFar(n, g, i, j) + if i == j then 0 else g(i, j)
    ensures PairsSoFar(n, g, i, n) == PairsSoFar(n, g, i + 1, 0)
    ensures PairsSoFar(n, g, n, 0) == PairSum(n, g)
  {
  }

  function UpperSoFar(n: nat, g: (int, int) -> int, i: nat, j: nat): int {
    SumTo(i, x => UpperRow(n, x, g)) + SumTo(j, y => if i < y then g(i, y) + g(y, i) else 0)
  }

  lemma {:induction false} UpperNext(n: nat, g: (int, int) -> int, i: nat, j: nat)
    ensures UpperSoFar(n, g, 0, 0) == 0
    ensures UpperSoFar(n, g, i, j + 1) == UpperSoFar(n, g, i, j) + if i < j then g(i, j) + g(j, i) else 0
    ensures UpperSoFar(n, g, i, n) == UpperSoFar(n, g, i + 1, 0)
    ensures UpperSoFar(n, g, n, 0) == UpperSum(n, g)
  {
  }

  lemma {:induction false} PairsSoFarNonNegative(t: Txn, a: Key, b: Key, i: nat, j: nat)
    ensures PairsSoFar(|t|, Both(t, a, b), i, j) >= 0
  {
    var g := Both(t, a, b);
    forall x, y ensures g(x, y) >= 0 {
    }
    forall x ensures Row(|t|, x, g) >= 0 {
      SumToNonNegative(|t|, y => if x == y then 0 else g(x, y));
    }
    SumToNonNegative(i, x => Row(|t|, x, g));
    SumToNonNegative(j, y => if i == y then 0 else g(i, y));
  }

  // ---------- the graph while one transaction is added ----------

  /** Co-accesses in the history and in the part of `t` done so far. */
  function CoSoFar(h: seq<Txn>, t: Txn, i: nat, j: nat, a: Key, b: Key): int {
    Co(h, a, b) + PairsSoFar(|t|, Both(t, a, b), i, j)
  }

  ghost predicate EdgeSoFar(g: Graph, h: seq<Txn>, t: Txn, home: Key -> int, i: nat, j: nat, a: Key, b: Key) {
    && (HasEdge(g, a, b) ==> EdgeFits(home, a, b, g[a][b]))
    && (HasEdge(g, a, b) <==> CoSoFar(h, t, i, j, a, b) > 0)
    && DegreeOf(g, a, b) == Weight(home, a, b) * CoSoFar(h, t, i, j, a, b)
  }

  ghost predicate EdgesSoFar(g: Graph, h: seq<Txn>, t: Txn, home: Key -> int, i: nat, j: nat) {
    forall a, b :: EdgeSoFar(g, h, t, home, i, j, a, b)
  }

  function WithNode(g: Graph, a: Key): Graph {
    if a in g then g else g[a := map[]]
  }

  function NewEdge(home: Key -> int, a: Key, b: Key): Edge {
    Edge(b, home(a), home(b), home(a) == home(b), 0)
  }

  /** One co-access of `a` with `b` booked on the edge. */
  function Touched(g: Graph, home: Key -> int, a: Key, b: Key): (r: Graph)
    requires a in g
    ensures r.Keys == g.Keys
  {
    var e := if b in g[a] then g[a][b] else NewEdge(home, a, b);
    g[a := g[a][b := e.(degree := e.degree + if e.onSame then 0 else CROSS_TXN_WEIGHT)]]
  }

  lemma {:induction false} WithNodeKeeps(g: Graph, h: seq<Txn>, t: Txn, home: Key -> int, i: nat, j: nat, a: Key)
    requires EdgesSoFar(g, h, t, home, i, j)
    ensures EdgesSoFar(WithNode(g, a), h, t, home, i, j)
  {
    forall x, y ensures EdgeSoFar(WithNode(g, a), h, t, home, i, j, x, y) {
      assert EdgeSoFar(g, h, t, home, i, j, x, y);
    }
  }

  lemma {:induction false} CoNext(h: seq<Txn>, t: Txn, i: nat, j: nat, a: Key, b: Key)
    requires i < |t| && j < |t|
    ensures CoSoFar(h, t, i, j + 1, a, b)
        == CoSoFar(h, t, i, j, a, b) + if i != j && a == t[i] && b == t[j] then 1 else 0
    ensures CoSoFar(h, t, i, j, a, b) >= 0
  {
    PairsNext(|t|, Both(t, a, b), i, j);
    assert Both(t, a, b)(i, j) == if Is(t, i, a) && Is(t, j, b) then 1 else 0;
    PairsSoFarNonNegative(t, a, b, i, j);
    DegreesSymmetric(h, _ => 0, a, b);
  }

  lemma {:induction false} TouchedNext(g: Graph, h: seq<Txn>, t: Txn, home: Key -> int, i: nat, j: nat)
    requires EdgesSoFar(g, h, t, home, i, j) && i < |t| && j < |t| && t[i] in g
    ensures EdgesSoFar(if i == j then g else Touched(g, home, t[i], t[j]), h, t, home, i, j + 1)
  {
    var g1 := if i == j then g else Touched(g, home, t[i], t[j]);
    var next := j + 1;
    forall a, b ensures EdgeSoFar(g1, h, t, home, i, next, a, b) {
      hide CoSoFar;
      assert EdgeSoFar(g, h, t, home, i, j, a, b);
      CoNext(h, t, i, j, a, b);
    }
  }

  lemma {:induction false} EdgesNextRow(g: Graph, h: seq<Txn>, t: Txn, home: Key -> int, i: nat)
    requires EdgesSoFar(g, h, t, home, i, |t|)
    ensures EdgesSoFar(g, h, t, home, i + 1, 0)
  {
    var next := i + 1;
    forall a, b ensures EdgeSoFar(g, h, t, home, next, 0, a, b) {
      assert EdgeSoFar(g, h, t, home, i, |t|, a, b);
      PairsNext(|t|, Both(t, a, b), i, 0);
    }
  }

  // ---------- loads and access counts while one transaction is added ----------

  function LoadSoFar(h: seq<Txn>, t: Txn, home: Key -> int, i: nat, j: nat, c: int): int {
    Load(h, home, c) + SumTo(i, x => if AccessHome(t, home, x) == c then 1 else 0)
        + UpperSoFar(|t|, ChargeTo(t, home, c), i, j)
  }

  ghost predicate LoadsSoFar(load: map<int, int>, h: seq<Txn>, t: Txn, home: Key -> int, i: nat, j: nat) {
    forall c :: Get(load, c) == LoadSoFar(h, t, home, i, j, c)
  }

  function Charged(load: map<int, int>, c: int, w: int): map<int, int> {
    load[c := Get(load, c) + w]
  }

  /** The charge of one pair of accesses, booked on both ends. */
  function PairCharged(load: map<int, int>, e: Edge): map<int, int> {
    var w := if e.onSame then 0 else CROSS_TXN_WEIGHT;
    Charged(Charged(load, e.fromId, w), e.toId, w)
  }

  lemma {:induction false} LoadsNext(load: map<int, int>, h: seq<Txn>, t: Txn, home: Key -> int, i: nat, j: nat,
          e: Edge)
    requires LoadsSoFar(load, h, t, home, i, j) && i < |t| && j < |t|
    requires i < j ==> EdgeFits(home, t[i], t[j], e)
    ensures LoadsSoFar(if i < j then PairCharged(load, e) else load, h, t, home, i, j + 1)
  {
    var next := j + 1;
    var load1 := if i < j then PairCharged(load, e) else load;
    forall c ensures Get(load1, c) == LoadSoFar(h, t, home, i, next, c) {
      assert Get(load, c) == LoadSoFar(h, t, home, i, j, c);
      var g := ChargeTo(t, home, c);
      UpperNext(|t|, g, i, j);
      assert g(i, j) == PairCharge(t, home, c, i, j) && g(j, i) == PairCharge(t, home, c, j, i);
    }
  }

  lemma {:induction false} LoadsNextRow(load: map<int, int>, h: seq<Txn>, t: Txn, home: Key -> int, i: nat)
    requires LoadsSoFar(load, h, t, home, i, |t|) && i < |t|
    ensures LoadsSoFar(Charged(load, AccessHome(t, home, i), 1), h, t, home, i + 1, 0)
  {
    var next := i + 1;
    var load1 := Charged(load, AccessHome(t, home, i), 1);
    hide LoadSoFar;
    forall c ensures Get(load1, c) == LoadSoFar(h, t, home, next, 0, c) {
      LoadNextRow(h, t, home, i, c);
    }
  }

  lemma {:induction false} LoadNextRow(h: seq<Txn>, t: Txn, home: Key -> int, i: nat, c: int)
    ensures LoadSoFar(h, t, home, i + 1, 0, c)
        == LoadSoFar(h, t, home, i, |t|, c) + if AccessHome(t, home, i) == c then 1 else 0
  {
    hide UpperSoFar;
    UpperNext(|t|, ChargeTo(t, home, c), i, 0);
  }

  function HotSoFar(h: seq<Txn>, t: Txn, i: nat, a: Key): int {
    Hot(h, a) + SumTo(i, x => if Is(t, x, a) then 1 else 0)
  }

  ghost predicate AllHotSoFar(hot: map<Key, int>, h: seq<Txn>, t: Txn, i: nat) {
    forall a :: Get(hot, a) == HotSoFar(h, t, i, a)
  }

  lemma {:induction false} HotNext(hot: map<Key, int>, h: seq<Txn>, t: Txn, i: nat)
    requires AllHotSoFar(hot, h, t, i) && i < |t|
    ensures AllHotSoFar(hot[t[i] := Get(hot, t[i]) + 1], h, t, i + 1)
  {
    var next := i + 1;
    var hot1 := hot[t[i] := Get(hot, t[i]) + 1];
    forall a ensures Get(hot1, a) == HotSoFar(h, t, next, a) {
      assert Get(hot, a) == HotSoFar(h, t, i, a);
    }
  }

  // ---------- between two transactions ----------

  /** The stored edges and counts are those of the history. */
  ghost predicate GraphIs(g: Graph, hot: map<Key, int>, h: seq<Txn>, home: Key -> int) {
    && (forall a, b :: EdgeIs(g, h, home, a, b))
    && forall a :: Get(hot, a) == Hot(h, a)
  }

  /** And so are the stored loads. */
  ghost predicate Represents(g: Graph, hot: map<Key, int>, load: map<int, int>, h: seq<Txn>, home: Key -> int) {
    GraphIs(g, hot, h, home) && forall c :: Get(load, c) == Load(h, home, c)
  }

  /** The ends of all edges have loads. */
  ghost predicate Housed(g: Graph, load: map<int, int>, home: Key -> int) {
    forall a, b :: HasEdge(g, a, b) ==> home(a) in load && home(b) in load
  }

  /** A pair of accesses charges its ends the first time round, and later its other edge is there. */
  lemma {:induction false} HousedNext(g: Graph, load: map<int, int>, h: seq<Txn>, t: Txn, home: Key -> int, i: nat,
          j: nat, e: Edge)
    requires EdgesSoFar(g, h, t, home, i, j) && Housed(g, load, home) && i < |t| && j < |t| && i != j && t[i] in g
    requires EdgeFits(home, t[i], t[j], e)
    ensures Housed(Touched(g, home, t[i], t[j]), if i < j then PairCharged(load, e) else load, home)
  {
    hide CoSoFar;
    var g1 := Touched(g, home, t[i], t[j]);
    if j < i {
      ReverseBooked(h, t, i, j);
      assert EdgeSoFar(g, h, t, home, i, j, t[j], t[i]);
    }
    forall a, b | HasEdge(g1, a, b) ensures HasEdge(g, a, b) || (a == t[i] && b == t[j]) {
    }
  }

  lemma {:induction false} HousedWithNode(g: Graph, load: map<int, int>, home: Key -> int, a: Key)
    requires Housed(g, load, home)
    ensures Housed(WithNode(g, a), load, home)
  {
    assert forall x, y :: HasEdge(WithNode(g, a), x, y) ==> HasEdge(g, x, y);
  }

  lemma {:induction false} ReverseBooked(h: seq<Txn>, t: Txn, i: nat, j: nat)
    requires j < i < |t|
    ensures CoSoFar(h, t, i, j, t[j], t[i]) > 0
  {
    var g := Both(t, t[j], t[i]);
    var rows := x => Row(|t|, x, g);
    forall x ensures rows(x) >= 0 && (rows(x) > 0 <==> exists y :: 0 <= y < |t| && x != y && g(x, y) > 0) {
      RowPositive(|t|, x, g);
    }
    assert g(j, i) == if Is(t, j, t[j]) && Is(t, i, t[i]) then 1 else 0;
    assert rows(j) > 0;
    SumToPositive(i, rows);
    SumToNonNegative(j, y => if i == y then 0 else g(i, y));
    DegreesSymmetric(h, _ => 0, t[j], t[i]);
  }

  ghost predicate EdgeIs(g: Graph, h: seq<Txn>, home: Key -> int, a: Key, b: Key) {
    && (HasEdge(g, a, b) ==> EdgeFits(home, a, b, g[a][b]))
    && (HasEdge(g, a, b) <==> Co(h, a, b) > 0)
    && DegreeOf(g, a, b) == Degree(h, home, a, b)
  }

  lemma {:induction false} StartOfTxn(g: Graph, hot: map<Key, int>, load: map<int, int>, h: seq<Txn>, t: Txn,
          home: Key -> int)
    requires Represents(g, hot, load, h, home)
    ensures EdgesSoFar(g, h, t, home, 0, 0) && LoadsSoFar(load, h, t, home, 0, 0) && AllHotSoFar(hot, h, t, 0)
  {
    forall a, b ensures EdgeSoFar(g, h, t, home, 0, 0, a, b) {
      assert EdgeIs(g, h, home, a, b);
      PairsNext(|t|, Both(t, a, b), 0, 0);
    }
    forall c ensures Get(load, c) == LoadSoFar(h, t, home, 0, 0, c) {
      UpperNext(|t|, ChargeTo(t, home, c), 0, 0);
    }
    forall a ensures Get(hot, a) == HotSoFar(h, t, 0, a) {
    }
  }

  lemma {:induction false} EdgeAtEnd(g: Graph, h: seq<Txn>, t: Txn, home: Key -> int, a: Key, b: Key)
    requires EdgeSoFar(g, h, t, home, |t|, 0, a, b)
    ensures EdgeIs(g, h + [t], home, a, b)
  {
    hide CoSoFar, Co, EdgeFits, HasEdge, DegreeOf;
    CoAtEnd(h, t, a, b);
  }

  lemma {:induction false} CoAtEnd(h: seq<Txn>, t: Txn, a: Key, b: Key)
    ensures CoSoFar(h, t, |t|, 0, a, b) == Co(h + [t], a, b)
  {
    hide PairsSoFar, PairSum;
    var h1 := h + [t];
    assert h1[..|h1| - 1] == h;
    PairsNext(|t|, Both(t, a, b), |t|, 0);
  }

  lemma {:induction false} HotAtEnd(h: seq<Txn>, t: Txn, a: Key)
    ensures HotSoFar(h, t, |t|, a) == Hot(h + [t], a)
  {
    var h1 := h + [t];
    assert h1[..|h1| - 1] == h;
  }

  lemma {:induction false} LoadAtEnd(h: seq<Txn>, t: Txn, home: Key -> int, c: int)
    ensures LoadSoFar(h, t, home, |t|, 0, c) == Load(h + [t], home, c)
  {
    var h1 := h + [t];
    assert h1[..|h1| - 1] == h;
    UpperNext(|t|, ChargeTo(t, home, c), |t|, 0);
  }

  lemma {:induction false} EndOfTxn(g: Graph, hot: map<Key, int>, load: map<int, int>, h: seq<Txn>, t: Txn,
          home: Key -> int)
    requires EdgesSoFar(g, h, t, home, |t|, 0) && LoadsSoFar(load, h, t, home, |t|, 0) && AllHotSoFar(hot, h, t, |t|)
    ensures Represents(g, hot, load, h + [t], home)
  {
    hide EdgeSoFar, EdgeIs, HotSoFar, LoadSoFar, Hot, Load;
    var h1 := h + [t];
    forall a, b ensures EdgeIs(g, h1, home, a, b) {
      EdgeAtEnd(g, h, t, home, a, b);
    }
    forall a ensures Get(hot, a) == Hot(h1, a) {
      HotAtEnd(h, t, a);
    }
    forall c ensures Get(load, c) == Load(h1, home, c) {
      LoadAtEnd(h, t, home, c);
    }
  }

  /** The list of keys in order of first access, and its index. */
  ghost predicate Indexed(order: seq<Key>, index: map<Key, nat>, hot: map<Key, int>, g: Graph) {
    && Distinct(order) && (forall a :: a in order <==> a in hot)
    && (forall a :: a in index <==> a in hot)
    && (forall i :: 0 <= i < |order| ==> order[i] in index && index[order[i]] == i)
    && (forall a :: a in hot ==> a in g)
  }

  /** The stored graph as a relation. */
  function EdgeRelation(g: Graph): (Key, Key) -> bool {
    (a, b) => HasEdge(g, a, b)
  }

  /** Some transaction of the history accesses both keys. */
  ghost function LinkedBy(h: seq<Txn>): (Key, Key) -> bool {
    (a, b) => EverTogether(h, a, b)
  }

  function StoredDegrees(g: Graph, a: Key): Key -> int {
    b => DegreeOf(g, a, b)
  }

  function StoredKeyLoad(order: seq<Key>, g: Graph, hot: map<Key, int>, home: Key -> int, c: int, a: Key): int {
    if home(a) == c then Get(hot, a) + Sum(order, StoredDegrees(g, a)) else 0
  }

  /** The load of `c` read off the stored maps: the count of each key on `c` and the degrees of all
      edges leaving it. */
  function StoredLoad(order: seq<Key>, g: Graph, hot: map<Key, int>, home: Key -> int, c: int): int {
    Sum(order, a => StoredKeyLoad(order, g, hot, home, c, a))
  }

  lemma {:induction false} StoredIsGraph(g: Graph, hot: map<Key, int>, load: map<int, int>, h: seq<Txn>,
          home: Key -> int, order: seq<Key>, c: int)
    requires Represents(g, hot, load, h, home)
    ensures StoredLoad(order, g, hot, home, c) == GraphLoad(order, h, home, c)
  {
    forall i | 0 <= i < |order|
      ensures StoredKeyLoad(order, g, hot, home, c, order[i]) == KeyLoad(order, h, home, c, order[i])
    {
      var a := order[i];
      forall k | 0 <= k < |order| ensures StoredDegrees(g, a)(order[k]) == Degrees(h, home, a)(order[k]) {
        assert EdgeIs(g, h, home, a, order[k]);
      }
      SumSame(order, StoredDegrees(g, a), Degrees(h, home, a));
    }
    SumSame(order, a => StoredKeyLoad(order, g, hot, home, c, a), a => KeyLoad(order, h, home, c, a));
  }

  /** A clump with the access count of each of its keys. */
  datatype Clump = Clump(keys: seq<Key>, counts: seq<int>, accessFrequency: int)

  ghost function KeyLists(clumps: seq<Clump>): (r: seq<seq<Key>>)
    ensures |r| == |clumps| && forall i :: 0 <= i < |r| ==> r[i] == clumps[i].keys
  {
    seq(|clumps|, i requires 0 <= i < |clumps| => clumps[i].keys)
  }

  function HotOf(h: seq<Txn>): Key -> int {
    a => Hot(h, a)
  }

  /** The counts of a clump are those of the history, and its frequency is their sum. */
  ghost predicate CountsFit(h: seq<Txn>, c: Clump) {
    && |c.counts| == |c.keys| && (forall i :: 0 <= i < |c.keys| ==> c.counts[i] == Hot(h, c.keys[i]))
    && c.accessFrequency == Sum(c.keys, HotOf(h))
  }

  lemma {:induction false} SumAppend(s: seq<Key>, k: Key, f: Key -> int)
    ensures Sum(s + [k], f) == Sum(s, f) + f(k)
  {
    if s == [] {
      assert [k][1..] == [];
    } else {
      assert (s + [k])[1..] == s[1..] + [k];
      SumAppend(s[1..], k, f);
    }
  }

  function WithRecord(c: Clump, key: Key, count: int): (r: Clump)
    ensures r.keys == c.keys + [key]
  {
    Clump(c.keys + [key], c.counts + [count], c.accessFrequency + count)
  }

  lemma {:induction false} RecordAdded(h: seq<Txn>, c: Clump, key: Key)
    requires CountsFit(h, c)
    ensures CountsFit(h, WithRecord(c, key, Hot(h, key))) && Elements(c.keys + [key]) == Elements(c.keys) + {key}
  {
    SumAppend(c.keys, key, HotOf(h));
  }

  lemma {:induction false} AllPushed(g: Graph, key: Key, used: set<Key>, queue: seq<Key>, q: seq<Key>)
    requires key in g && (forall a :: a in queue ==> a in q) && (forall a :: a in q ==> a in queue || a in g[key])
    requires forall b :: b in g[key] && b !in used ==> b in q
    ensures Pushed(EdgeRelation(g), key, used, queue, q)
  {
    var edge := EdgeRelation(g);
    forall b ensures edge(key, b) <==> b in g[key] {
      assert edge(key, b) == HasEdge(g, key, b);
    }
  }

  lemma {:induction false} NoCounts(h: seq<Txn>)
    ensures CountsFit(h, Clump([], [], 0)) && Elements<Key>([]) == {}
  {
  }

  lemma {:induction false} NotMember(s: seq<Key>, a: Key)
    ensures a in Elements(s) <==> a in s
  {
  }

  lemma {:induction false} Shrinks(s: set<Key>, t: set<Key>, key: Key)
    requires key in s && t == s - {key}
    ensures |t| < |s|
  {
  }

  lemma {:induction false} FoundClosed(edge: (Key, Key) -> bool, clumps: seq<seq<Key>>, used: set<Key>)
    requires Found(edge, clumps, used)
    ensures Closed(edge, used)
  {
  }

  ghost function PlanLists(plans: seq<Plan>): (r: seq<seq<Key>>)
    ensures |r| == |plans| && forall i :: 0 <= i < |r| ==> r[i] == KeysOf(plans[i].records)
  {
    seq(|plans|, i requires 0 <= i < |plans| => KeysOf(plans[i].records))
  }

  /** The edges queued so far: one for each that is visited and leads to a key not marked before. */
  ghost predicate QueuedFrom(edges: map<Key, Edge>, left: set<Key>, marked: set<Key>, key: Key, more: seq<Edge>) {
    && Distinct(Targets(more))
    && (forall b :: b in Targets(more) <==> b in edges && b !in left && b !in marked && b != key)
    && forall i :: 0 <= i < |more| ==> more[i].to in edges && more[i] == edges[more[i].to]
  }

  lemma {:induction false} NoneQueued(edges: map<Key, Edge>, marked: set<Key>, key: Key)
    ensures QueuedFrom(edges, edges.Keys, marked, key, [])
  {
  }

  lemma {:induction false} QueueOne(edges: map<Key, Edge>, left: set<Key>, marked: set<Key>, key: Key, more: seq<Edge>,
          b: Key)
    requires QueuedFrom(edges, left, marked, key, more) && left <= edges.Keys && b in left && edges[b].to == b
    ensures QueuedFrom(edges, left - {b}, marked, key, if b in marked || b == key then more else more + [edges[b]])
  {
    hide Distinct;
    if b !in marked && b != key {
      TargetsMore(more, edges[b]);
    }
  }

  /** The queued edges lead to stored keys with an edge of their own. */
  ghost predicate QueueFits(g: Graph, home: Key -> int, queue: seq<Edge>) {
    forall i :: 0 <= i < |queue| ==>
      queue[i].to in g && queue[i].toId == home(queue[i].to) && g[queue[i].to] != map[]
  }

  lemma {:induction false} QueueFitsOne(g: Graph, home: Key -> int, queue: seq<Edge>, e: Edge)
    requires QueueFits(g, home, queue) && e.to in g && e.toId == home(e.to) && g[e.to] != map[]
    ensures QueueFits(g, home, queue + [e])
  {
  }

  lemma {:induction false} QueueFitsRest(g: Graph, home: Key -> int, queue: seq<Edge>, i: nat)
    requires QueueFits(g, home, queue) && i < |queue|
    ensures QueueFits(g, home, queue[..i] + queue[i + 1..])
  {
    var rest := queue[..i] + queue[i + 1..];
    forall k | 0 <= k < |rest| ensures rest[k] == queue[if k < i then k else k + 1] {
    }
  }

  lemma {:induction false} TargetsMore(edges: seq<Edge>, e: Edge)
    requires Distinct(Targets(edges)) && e.to !in Targets(edges)
    ensures Distinct(Targets(edges + [e]))
    ensures forall b :: b in Targets(edges + [e]) <==> b in Targets(edges) || b == e.to
  {
    assert Targets(edges + [e]) == Targets(edges) + [e.to];
  }

  /** A key never joins the queue with its own neighbours. */
  lemma {:induction false} NotJoined(h: seq<Txn>, home: Key -> int, key: Key, marked: set<Key>, before: seq<Edge>,
          after: seq<Edge>)
    requires Joined(h, home, key, marked, before, after) && key !in Targets(before)
    ensures key !in Targets(after)
  {
    hide EverTogether;
    var edges :| NewEdges(h, home, key, marked, edges) && after == before + edges;
    assert Targets(after) == Targets(before) + Targets(edges);
  }

  /** The totals per coordinator, and the first coordinator that reached the highest one. */
  datatype Tally = Tally(totals: map<int, int>, best: int, degree: int)

  ghost predicate Leads(t: Tally) {
    && (forall c :: c in t.totals ==> 0 <= t.totals[c] <= t.degree)
    && (if t.totals == map[] then t.degree == -1 else t.best in t.totals && t.totals[t.best] == t.degree)
  }

  lemma {:induction false} NoTally()
    ensures Leads(Tally(map[], -1, -1))
  {
  }

  /** One edge of weight `w` to coordinator `c`. */
  function Counted(t: Tally, c: int, w: int): (r: Tally)
    requires w >= 0
    ensures Leads(t) ==> Leads(r)
    ensures r.totals == t.totals[c := Get(t.totals, c) + w]
  {
    var totals := t.totals[c := Get(t.totals, c) + w];
    if totals[c] > t.degree then Tally(totals, c, totals[c]) else Tally(totals, t.best, t.degree)
  }

  lemma {:induction false} LeadIsMost(g: Setting, records: seq<Record>, t: Tally)
    requires Leads(t) && (exists c :: Reaches(g, records, c))
    requires forall c :: Get(t.totals, c) == Related(g, records, c)
    requires forall c :: c in t.totals <==> Reaches(g, records, c)
    ensures MostRelated(g, records, t.best)
  {
    hide Reaches, Related;
    var c :| Reaches(g, records, c);
    assert c in t.totals;
    forall d | Reaches(g, records, d) ensures Related(g, records, d) <= Related(g, records, t.best) {
      assert d in t.totals;
      assert Get(t.totals, d) == t.totals[d];
    }
  }

  lemma {:induction false} OneMoreRecord(g: Setting, records: seq<Record>, i: nat, c: int)
    requires i < |records|
    ensures Related(g, records[..i + 1], c)
         == Related(g, records[..i], c) + Sum(g.order, RelatedTerm(g.history, g.home, records[i].key, c))
    ensures Reaches(g, records[..i + 1], c) <==>
              || Reaches(g, records[..i], c)
              || exists b :: EverTogether(g.history, records[i].key, b) && g.home(b) == c
  {
    hide Sum, EverTogether;
    var more, front := records[..i + 1], records[..i];
    assert more[..i] == front;
    if exists b :: EverTogether(g.history, records[i].key, b) && g.home(b) == c {
      var b :| EverTogether(g.history, records[i].key, b) && g.home(b) == c;
      assert EverTogether(g.history, more[i].key, b) && g.home(b) == c;
    }
    if Reaches(g, front, c) {
      var k, b :| 0 <= k < |front| && EverTogether(g.history, front[k].key, b) && g.home(b) == c;
      assert EverTogether(g.history, more[k].key, b) && g.home(b) == c;
    }
    if Reaches(g, more, c) {
      var k, b :| 0 <= k < |more| && EverTogether(g.history, more[k].key, b) && g.home(b) == c;
      assert k < i ==> EverTogether(g.history, front[k].key, b) && g.home(b) == c;
    }
  }

  lemma {:induction false} SomeKey<K, V>(m: map<K, V>) returns (b: K)
    requires m != map[]
    ensures b in m
  {
    b :| b in m.Keys;
  }

  /** A later coordinator takes the place of an earlier one exactly if it pays less. */
  lemma {:induction false} Compared(g: Setting, records: seq<Record>, d: int, c: int)
    ensures NoDearer(g, records, c, c)
    ensures d < c && ReceiverDelta(g, Plan(records, d)) <= ReceiverDelta(g, Plan(records, c)) ==>
              NoDearer(g, records, d, c)
    ensures ReceiverDelta(g, Plan(records, c)) < ReceiverDelta(g, Plan(records, d)) ==>
              forall x :: NoDearer(g, records, d, x) ==> NoDearer(g, records, c, x)
  {
    hide ReceiverDelta;
  }

  lemma {:induction false} DeltaIs(g: Setting, records: seq<Record>, c: int, delta: int)
    requires delta == ReceiverCosts(g.order, g.history, g.home, KeysOf(records), c)
    ensures delta == ReceiverDelta(g, Plan(records, c))
  {
  }

  method Least(s: set<int>) returns (m: int)
    requires s != {}
    ensures m in s && forall x :: x in s ==> m <= x
  {
    var left := s;
    m := Pick(left);
    left := left - {m};
    while left != {}
      invariant left <= s && m in s && forall x :: x in s && x !in left ==> m <= x
      decreases |left|
    {
      var x := Pick(left);
      m := if x < m then x else m;
      left := left - {x};
    }
  }

  /** `marked` holds every key that was ever queued or picked; the keys of the queue, of the plans
      and of the plan in the making are among them and all different. */
  ghost predicate OncePlanned(marked: set<Key>, queue: seq<Key>, plans: seq<seq<Key>>, tmp: seq<Key>) {
    && Distinct(queue) && Distinct(tmp) && Apart(tmp, queue)
    && (forall a :: a in queue || a in tmp ==> a in marked)
    && (forall p :: 0 <= p < |plans| ==>
          |plans[p]| > 0 && Distinct(plans[p]) && Apart(plans[p], queue) && Apart(plans[p], tmp)
              && forall a :: a in plans[p] ==> a in marked)
    && forall p, q :: 0 <= p < q < |plans| ==> Apart(plans[p], plans[q])
  }

  /** A fresh key is in no queue and no plan. */
  lemma {:induction false} KeyMarked(marked: set<Key>, queue: seq<Key>, plans: seq<seq<Key>>, tmp: seq<Key>, key: Key)
    requires OncePlanned(marked, queue, plans, tmp) && key !in marked
    ensures OncePlanned(marked + {key}, queue, plans, tmp)
    ensures key !in queue && key !in tmp && forall p :: 0 <= p < |plans| ==> key !in plans[p]
  {
  }

  lemma {:induction false} NeighbourQueued(marked: set<Key>, queue: seq<Edge>, plans: seq<seq<Key>>, tmp: seq<Key>,
          e: Edge)
    requires OncePlanned(marked, Targets(queue), plans, tmp) && e.to !in marked
    ensures OncePlanned(marked + {e.to}, Targets(queue + [e]), plans, tmp)
    ensures forall a :: a in Targets(queue + [e]) <==> a in Targets(queue) || a == e.to
  {
    assert Targets(queue + [e]) == Targets(queue) + [e.to];
    KeyMarked(marked, Targets(queue), plans, tmp, e.to);
  }

  ghost predicate FreshKey(queue: seq<Key>, plans: seq<seq<Key>>, key: Key) {
    key !in queue && forall p :: 0 <= p < |plans| ==> key !in plans[p]
  }

  lemma {:induction false} PlanStarted(marked: set<Key>, queue: seq<Key>, plans: seq<seq<Key>>, key: Key)
    requires OncePlanned(marked, queue, plans, []) && FreshKey(queue, plans, key) && key in marked
    ensures OncePlanned(marked, queue, plans, [key])
  {
  }

  lemma {:induction false} NeighbourTaken(marked: set<Key>, queue: seq<Edge>, plans: seq<seq<Key>>, tmp: seq<Key>,
          i: nat)
    requires OncePlanned(marked, Targets(queue), plans, tmp) && i < |queue|
    ensures OncePlanned(marked, Targets(queue[..i] + queue[i + 1..]), plans, tmp + [queue[i].to])
    ensures queue[i].to in marked
  {
    var t, u := Targets(queue), Targets(queue[..i] + queue[i + 1..]);
    assert u == t[..i] + t[i + 1..];
    assert t[i] in t && forall a :: a in u ==> a in t;
    forall a | a in u ensures a != t[i] {
      var k :| 0 <= k < |u| && u[k] == a;
      assert u[k] == t[if k < i then k else k + 1];
    }
  }

  lemma {:induction false} PlanPushed(marked: set<Key>, queue: seq<Key>, plans: seq<seq<Key>>, tmp: seq<Key>,
          plan: seq<Key>)
    requires OncePlanned(marked, queue, plans, tmp) && plan <= tmp && plan != []
    ensures OncePlanned(marked, queue, plans + [plan], [])
  {
    assert forall a :: a in plan ==> a in tmp;
    var plans1 := plans + [plan];
    forall p | 0 <= p < |plans1|
      ensures |plans1[p]| > 0 && Distinct(plans1[p]) && Apart(plans1[p], queue)
          && forall a :: a in plans1[p] ==> a in marked
    {
    }
  }

  /** The index of an edge with the highest degree. */
  method TopIndex(edges: seq<Edge>) returns (best: nat)
    requires edges != []
    ensures best < |edges| && forall i :: 0 <= i < |edges| ==> edges[i].degree <= edges[best].degree
  {
    best := 0;
    var i := 1;
    while i < |edges|
      invariant 1 <= i <= |edges| && best < i
      invariant forall k :: 0 <= k < i ==> edges[k].degree <= edges[best].degree
    {
      if edges[i].degree > edges[best].degree {
        best := i;
      }
      i := i + 1;
    }
  }

  /** The first position from `from` on whose key is not marked. */
  method NextFresh(heap: seq<Key>, from: nat, marked: set<Key>) returns (pos: nat)
    requires from <= |heap|
    ensures from <= pos <= |heap| && (forall i :: from <= i < pos ==> heap[i] in marked)
    ensures pos < |heap| ==> heap[pos] !in marked
  {
    pos := from;
    while pos < |heap| && heap[pos] in marked
      invariant from <= pos <= |heap| && forall i :: from <= i < pos ==> heap[i] in marked
    {
      pos := pos + 1;
    }
  }

  lemma {:induction false} FewerLeftBy(all: set<Key>, s: set<Key>, t: set<Key>, key: Key)
    requires s <= t && key in t && key !in s && key in all
    ensures |all - t| < |all - s|
  {
    FewerLeft(all, s + {key}, t);
    assert all - s == (all - (s + {key})) + {key};
  }

  lemma {:induction false} FewerLeft(all: set<Key>, s: set<Key>, t: set<Key>)
    requires s <= t
    ensures |all - t| <= |all - s|
  {
    assert all - s == (all - t) + ((all - s) - (all - t));
  }

  /** The sum over the edges that are no longer left to visit. */
  ghost function Visited(keys: seq<Key>, term: Key -> int, edges: set<Key>, left: set<Key>): int {
    Sum(keys, VisitedTerm(term, edges, left))
  }

  ghost function VisitedTerm(term: Key -> int, edges: set<Key>, left: set<Key>): Key -> int {
    b => VisitedAt(term, edges, left, b)
  }

  ghost function VisitedAt(term: Key -> int, edges: set<Key>, left: set<Key>, b: Key): int {
    if b in edges && b !in left then term(b) else 0
  }

  lemma {:induction false} VisitedNone(keys: seq<Key>, term: Key -> int, edges: set<Key>)
    ensures Visited(keys, term, edges, edges) == 0
  {
    SumZero(keys, VisitedTerm(term, edges, edges));
  }

  lemma {:induction false} VisitedOne(keys: seq<Key>, term: Key -> int, edges: set<Key>, left: set<Key>, b: Key)
    requires Distinct(keys) && b in keys && b in left && left <= edges
    ensures Visited(keys, term, edges, left - {b}) == Visited(keys, term, edges, left) + term(b)
  {
    SumChange(keys, b, VisitedTerm(term, edges, left - {b}), VisitedTerm(term, edges, left));
  }

  lemma {:induction false} VisitedAll(keys: seq<Key>, term: Key -> int, edges: set<Key>)
    requires forall b :: b !in edges ==> term(b) == 0
    ensures Visited(keys, term, edges, {}) == Sum(keys, term)
  {
    SumSame(keys, VisitedTerm(term, edges, {}), term);
  }

  class Clay {
    const home: Key -> int
    var recordDegree: Graph
    var hottestTuple: map<Key, int>
    var hottestTupleIndex: map<Key, nat>
    var hottestTupleIndexSeq: seq<Key>
    var nodeLoad: map<int, int>
    ghost var history: seq<Txn>
    var moveTupleId: set<Key>
    var neighbours: seq<Edge>
    var movePlans: seq<Plan>

    /** The stored graph is that of the history; it does not depend on the loads. */
    ghost predicate Stored()
      reads `recordDegree, `hottestTuple, `hottestTupleIndex, `hottestTupleIndexSeq, `history
    {
      && GraphIs(recordDegree, hottestTuple, history, home)
      && Indexed(hottestTupleIndexSeq, hottestTupleIndex, hottestTuple, recordDegree)
      && Covers(hottestTupleIndexSeq, history)
      && recordDegree.Keys == hottestTuple.Keys
    }

    ghost predicate Valid()
      reads `recordDegree, `hottestTuple, `hottestTupleIndex, `hottestTupleIndexSeq, `nodeLoad, `history
    {
      Stored() && Housed(recordDegree, nodeLoad, home) && forall c :: Get(nodeLoad, c) == Load(history, home, c)
    }

    constructor (home: Key -> int)
      ensures Valid() && this.home == home && history == []
      ensures moveTupleId == {} && neighbours == [] && movePlans == [] && PlansOk([]) && QueueOk()
    {
      this.home := home;
      recordDegree, hottestTuple, hottestTupleIndex, hottestTupleIndexSeq, nodeLoad, history :=
          map[], map[], map[], [], map[], [];
      moveTupleId, neighbours, movePlans := {}, [], [];
      new;
      forall a, b ensures EdgeIs(recordDegree, history, home, a, b) {
      }
    }

    /** Where the addition of `t` stands: rows before `i` and columns before `j` of row `i` are booked. */
    ghost predicate During(t: Txn, i: nat, j: nat)
      reads `recordDegree, `hottestTuple, `hottestTupleIndex, `hottestTupleIndexSeq, `nodeLoad, `history
    {
      && EdgesSoFar(recordDegree, history, t, home, i, j)
      && LoadsSoFar(nodeLoad, history, t, home, i, j)
      && AllHotSoFar(hottestTuple, history, t, i)
      && Housed(recordDegree, nodeLoad, home)
      && Indexed(hottestTupleIndexSeq, hottestTupleIndex, hottestTuple, recordDegree)
      && (forall k :: 0 <= k < |history| ==> KeysIn(history[k], hottestTupleIndexSeq))
      && (forall x :: 0 <= x < i && x < |t| ==> t[x] in hottestTupleIndexSeq)
      && forall a :: a in recordDegree ==> a in hottestTuple || (i < |t| && a == t[i])
    }

    method UpdateHottestTuple(key: Key)
      requires Indexed(hottestTupleIndexSeq, hottestTupleIndex, hottestTuple, recordDegree) && key in recordDegree
      modifies `hottestTuple, `hottestTupleIndex, `hottestTupleIndexSeq
      ensures hottestTuple == old(hottestTuple)[key := Get(old(hottestTuple), key) + 1]
      ensures Indexed(hottestTupleIndexSeq, hottestTupleIndex, hottestTuple, recordDegree)
      ensures old(hottestTupleIndexSeq) <= hottestTupleIndexSeq && key in hottestTupleIndexSeq
    {
      if key !in hottestTuple {
        hottestTuple := hottestTuple[key := 1];
        hottestTupleIndex := hottestTupleIndex[key := |hottestTupleIndexSeq|];
        hottestTupleIndexSeq := hottestTupleIndexSeq + [key];
      } else {
        hottestTuple := hottestTuple[key := hottestTuple[key] + 1];
      }
    }

    method UpdateNodeLoad(e: Edge)
      modifies `nodeLoad
      ensures nodeLoad == PairCharged(old(nodeLoad), e)
    {
      var weight := if e.onSame then 0 else CROSS_TXN_WEIGHT;
      nodeLoad := nodeLoad[e.fromId := Get(nodeLoad, e.fromId) + weight];
      nodeLoad := nodeLoad[e.toId := Get(nodeLoad, e.toId) + weight];
    }

    /** The edge part of the inner loop: the edge is created if need be, with the homes taken from
        the cache where it has them, and its degree grows. */
    method TouchEdge(one: Key, two: Key, cache: map<Key, int>) returns (edge: Edge, learned: map<Key, int>)
      requires one in recordDegree && (two in recordDegree[one] ==> EdgeFits(home, one, two, recordDegree[one][two]))
      requires forall k :: k in cache ==> cache[k] == home(k)
      modifies `recordDegree
      ensures recordDegree == Touched(old(recordDegree), home, one, two)
      ensures EdgeFits(home, one, two, edge)
      ensures (forall k :: k in learned ==> learned[k] == home(k)) && one in learned
    {
      var edges := recordDegree[one];
      if two !in edges {
        var fromId := if one in cache then cache[one] else home(one);
        var toId := if two in cache then cache[two] else home(two);
        edges := edges[two := Edge(two, fromId, toId, fromId == toId, 0)];
      }
      edge := edges[two];
      edge := edge.(degree := edge.degree + if edge.onSame then 0 else CROSS_TXN_WEIGHT);
      assert edges[two := edge] == recordDegree[one][two := edge];
      recordDegree := recordDegree[one := edges[two := edge]];
      learned := cache[one := edge.fromId][two := edge.toId];
    }

    /** The body of the inner loop: the co-access of the `i`-th key with the `j`-th. */
    method BookPair(t: Txn, i: nat, j: nat, cache: map<Key, int>) returns (learned: map<Key, int>)
      requires i < |t| && j < |t| && t[i] in recordDegree && During(t, i, j)
      requires forall k :: k in cache ==> cache[k] == home(k)
      modifies `recordDegree, `nodeLoad
      ensures During(t, i, j + 1) && t[i] in recordDegree
      ensures (forall k :: k in learned ==> learned[k] == home(k))
          && if i == j then learned == cache else t[i] in learned
    {
      hide EdgesSoFar, LoadsSoFar, AllHotSoFar, Touched, PairCharged, KeysIn, Housed;
      learned := cache;
      TouchedNext(recordDegree, history, t, home, i, j);
      if j != i {
        EdgeAtHand(t, i, j);
        var edge;
        edge, learned := TouchEdge(t[i], t[j], cache);
        HousedNext(old(recordDegree), nodeLoad, history, t, home, i, j, edge);
        LoadsNext(nodeLoad, history, t, home, i, j, edge);
        if j > i {
          UpdateNodeLoad(edge);
        }
      } else {
        LoadsNext(nodeLoad, history, t, home, i, j, NewEdge(home, t[i], t[j]));
      }
    }

    /** The inner loop: all co-accesses of the `i`-th key. */
    method ProcessRow(t: Txn, i: nat, cache: map<Key, int>) returns (learned: map<Key, int>)
      requires i < |t| && t[i] in recordDegree && During(t, i, 0)
      requires forall k :: k in cache ==> cache[k] == home(k)
      modifies `recordDegree, `nodeLoad
      ensures During(t, i, |t|) && t[i] in recordDegree
      ensures (forall k :: k in learned ==> learned[k] == home(k))
          && if |t| == 1 then learned == cache else t[i] in learned
    {
      hide During;
      learned := cache;
      var j := 0;
      while j < |t|
        invariant 0 <= j <= |t| && t[i] in recordDegree && During(t, i, j)
        invariant forall k :: k in learned ==> learned[k] == home(k)
        invariant if j == 0 || (i == 0 && j == 1) then learned == cache else t[i] in learned
      {
        learned := BookPair(t, i, j, learned);
        j := j + 1;
      }
    }

    lemma {:induction false} EdgeAtHand(t: Txn, i: nat, j: nat)
      requires i < |t| && j < |t| && EdgesSoFar(recordDegree, history, t, home, i, j) && t[i] in recordDegree
      ensures t[j] in recordDegree[t[i]] ==> EdgeFits(home, t[i], t[j], recordDegree[t[i]][t[j]])
    {
      assert EdgeSoFar(recordDegree, history, t, home, i, j, t[i], t[j]);
    }

    /** The rest of the outer loop's body: the key's access and its own charge. */
    method CountAccess(t: Txn, i: nat, learned: map<Key, int>)
      requires i < |t| && During(t, i, |t|) && t[i] in recordDegree
      requires forall k :: k in learned ==> learned[k] == home(k)
      requires if |t| == 1 then learned == map[] else t[i] in learned
      modifies `hottestTuple, `hottestTupleIndex, `hottestTupleIndexSeq, `nodeLoad
      ensures During(t, i + 1, 0)
    {
      hide EdgesSoFar, LoadsSoFar, AllHotSoFar, KeysIn, Indexed;
      EdgesNextRow(recordDegree, history, t, home, i);
      LoadsNextRow(nodeLoad, history, t, home, i);
      HotNext(hottestTuple, history, t, i);
      UpdateHottestTuple(t[i]);
      var charged := if t[i] in learned then learned[t[i]] else 0;
      nodeLoad := nodeLoad[charged := Get(nodeLoad, charged) + 1];
      IndexGrows(old(hottestTupleIndexSeq), hottestTupleIndexSeq);
    }

    /** The outer loop's body: one key with all its co-accesses. */
    method ProcessKey(t: Txn, i: nat, cache: map<Key, int>) returns (learned: map<Key, int>)
      requires i < |t| && During(t, i, 0)
      requires (forall k :: k in cache ==> cache[k] == home(k)) && (|t| == 1 ==> cache == map[])
      modifies `recordDegree, `hottestTuple, `hottestTupleIndex, `hottestTupleIndexSeq, `nodeLoad
      ensures During(t, i + 1, 0)
      ensures forall k :: k in learned ==> learned[k] == home(k)
    {
      hide EdgesSoFar, LoadsSoFar, AllHotSoFar, KeysIn, Housed;
      WithNodeKeeps(recordDegree, history, t, home, i, 0, t[i]);
      HousedWithNode(recordDegree, nodeLoad, home, t[i]);
      if t[i] !in recordDegree {
        recordDegree := recordDegree[t[i] := map[]];
      }
      learned := ProcessRow(t, i, cache);
      CountAccess(t, i, learned);
    }

    lemma {:induction false} IndexGrows(was: seq<Key>, now: seq<Key>)
      requires was <= now
      ensures forall a :: a in was ==> a in now
      ensures forall t: Txn :: KeysIn(t, was) ==> KeysIn(t, now)
    {
    }

    lemma {:induction false} IndexComplete(t: Txn)
      requires During(t, |t|, 0)
      ensures Indexed(hottestTupleIndexSeq, hottestTupleIndex, hottestTuple, recordDegree)
      ensures Covers(hottestTupleIndexSeq, history + [t]) && recordDegree.Keys == hottestTuple.Keys
    {
      hide EdgesSoFar, LoadsSoFar, AllHotSoFar;
      assert forall a :: a in recordDegree <==> a in hottestTuple;
    }

    method UpdateRecordDegreeSet(t: Txn)
      requires Valid()
      modifies `recordDegree, `hottestTuple, `hottestTupleIndex, `hottestTupleIndexSeq, `nodeLoad, `history
      ensures Valid() && history == old(history) + [t]
    {
      hide EdgesSoFar, LoadsSoFar, AllHotSoFar, KeysIn, GraphIs, Indexed, Housed;
      StartOfTxn(recordDegree, hottestTuple, nodeLoad, history, t, home);
      var cache: map<Key, int> := map[];
      var i := 0;
      while i < |t|
        invariant 0 <= i <= |t| && During(t, i, 0) && history == old(history)
        invariant (forall k :: k in cache ==> cache[k] == home(k)) && (i == 0 ==> cache == map[])
      {
        cache := ProcessKey(t, i, cache);
        i := i + 1;
      }
      EndOfTxn(recordDegree, hottestTuple, nodeLoad, history, t, home);
      IndexComplete(t);
      history := history + [t];
    }

    // ---------- costs of a move ----------

    lemma {:induction false} EdgeFacts(a: Key, b: Key)
      requires Stored()
      ensures a in recordDegree && b in recordDegree[a] ==>
                EdgeFits(home, a, b, recordDegree[a][b]) && recordDegree[a][b].degree == Degree(history, home, a, b)
                    && b in hottestTupleIndexSeq
      ensures !(a in recordDegree && b in recordDegree[a]) ==> Degree(history, home, a, b) == 0
    {
      assert EdgeIs(recordDegree, history, home, a, b);
      if a in recordDegree && b in recordDegree[a] {
        assert EdgeIs(recordDegree, history, home, b, a);
        DegreesSymmetric(history, home, a, b);
        assert b in recordDegree;
      }
    }

    lemma {:induction false} OneEdge(key: Key, left: set<Key>, b: Key, term: Key -> int)
      requires Stored() && key in recordDegree && left <= recordDegree[key].Keys && b in left
      ensures b in recordDegree[key] && EdgeFits(home, key, b, recordDegree[key][b])
      ensures recordDegree[key][b].degree == Degree(history, home, key, b)
      ensures Visited(hottestTupleIndexSeq, term, recordDegree[key].Keys, left - {b})
           == Visited(hottestTupleIndexSeq, term, recordDegree[key].Keys, left) + term(b)
    {
      EdgeFacts(key, b);
      VisitedOne(hottestTupleIndexSeq, term, recordDegree[key].Keys, left, b);
    }

    lemma {:induction false} AllEdges(key: Key, term: Key -> int)
      requires Stored() && key in recordDegree
      requires forall b :: Degree(history, home, key, b) == 0 ==> term(b) == 0
      ensures Visited(hottestTupleIndexSeq, term, recordDegree[key].Keys, {}) == Sum(hottestTupleIndexSeq, term)
      ensures Visited(hottestTupleIndexSeq, term, recordDegree[key].Keys, recordDegree[key].Keys) == 0
    {
      VisitedNone(hottestTupleIndexSeq, term, recordDegree[key].Keys);
      forall b | b !in recordDegree[key] ensures term(b) == 0 {
        EdgeFacts(key, b);
      }
      VisitedAll(hottestTupleIndexSeq, term, recordDegree[key].Keys);
    }

    /** The edge loop of `cost_delta_for_receiver` for one record. */
    method ReceiverEdges(key: Key, dest: int) returns (cost: int)
      requires Stored() && key in recordDegree
      ensures cost == Sum(hottestTupleIndexSeq, ReceiverTerms(history, home, key, dest))
    {
      hide Stored, Visited, Sum;
      ghost var term := ReceiverTerms(history, home, key, dest);
      AllEdges(key, term);
      var edges := recordDegree[key];
      var left := edges.Keys;
      cost := 0;
      while left != {}
        invariant left <= edges.Keys && cost == Visited(hottestTupleIndexSeq, term, edges.Keys, left)
        decreases |left|
      {
        var b := Pick(left);
        OneEdge(key, left, b, term);
        cost := if edges[b].toId == dest then cost - edges[b].degree else cost + edges[b].degree;
        left := left - {b};
      }
    }

    /** The edge loop of `cost_delta_for_sender` for one record. */
    method SenderEdges(key: Key, src: int) returns (cost: int)
      requires Stored() && key in recordDegree
      ensures cost == if home(key) == src then -Sum(hottestTupleIndexSeq, Degrees(history, home, key))
                      else Sum(hottestTupleIndexSeq, Degrees(history, home, key))
    {
      hide Stored, Visited, Sum;
      ghost var term := Degrees(history, home, key);
      AllEdges(key, term);
      var edges := recordDegree[key];
      var left := edges.Keys;
      cost := 0;
      while left != {}
        invariant left <= edges.Keys
        invariant cost == if home(key) == src
                          then -Visited(hottestTupleIndexSeq, term, edges.Keys, left)
                          else Visited(hottestTupleIndexSeq, term, edges.Keys, left)
        decreases |left|
      {
        var b := Pick(left);
        OneEdge(key, left, b, term);
        cost := if edges[b].fromId == src then cost - edges[b].degree else cost + edges[b].degree;
        left := left - {b};
      }
    }

    lemma {:induction false} HotFacts(key: Key)
      requires Stored()
      ensures Get(hottestTuple, key) == Hot(history, key)
    {
    }

    method CostDeltaForReceiver(records: seq<Record>, dest: int) returns (cost: int)
      requires Stored()
          && forall i :: 0 <= i < |records| ==> records[i].key in recordDegree && records[i].src == home(records[i].key)
      ensures cost == ReceiverCosts(hottestTupleIndexSeq, history, home, KeysOf(records), dest)
    {
      hide Stored;
      cost := 0;
      var i := 0;
      while i < |records|
        invariant 0 <= i <= |records|
        invariant cost == ReceiverCosts(hottestTupleIndexSeq, history, home, KeysOf(records[..i]), dest)
      {
        var key := records[i].key;
        assert KeysOf(records[..i + 1])[..i] == KeysOf(records[..i]);
        if records[i].src != dest {
          HotFacts(key);
          var edges := ReceiverEdges(key, dest);
          cost := cost + Get(hottestTuple, key) + edges;
        }
        i := i + 1;
      }
      assert records[..i] == records;
    }

    method CostDeltaForSender(records: seq<Record>, dest: int, src: int) returns (cost: int)
      requires Stored()
          && forall i :: 0 <= i < |records| ==> records[i].key in recordDegree && records[i].src == home(records[i].key)
      ensures cost == SenderCosts(hottestTupleIndexSeq, history, home, KeysOf(records), dest, src)
    {
      hide Stored;
      cost := 0;
      var i := 0;
      while i < |records|
        invariant 0 <= i <= |records|
        invariant cost == SenderCosts(hottestTupleIndexSeq, history, home, KeysOf(records[..i]), dest, src)
      {
        var key := records[i].key;
        assert KeysOf(records[..i + 1])[..i] == KeysOf(records[..i]);
        if records[i].src != dest {
          HotFacts(key);
          var edges := SenderEdges(key, src);
          cost := cost - Get(hottestTuple, key) + edges;
        }
        i := i + 1;
      }
      assert records[..i] == records;
    }

    // ---------- clumps ----------

    lemma {:induction false} GraphFacts()
      requires Stored()
      ensures Symmetric(EdgeRelation(recordDegree))
      ensures forall a, b :: EdgeRelation(recordDegree)(a, b) ==> a in recordDegree && b in recordDegree
      ensures forall a :: a in hottestTupleIndexSeq <==> a in recordDegree
    {
      var edge := EdgeRelation(recordDegree);
      forall a, b | edge(a, b) ensures edge(b, a) && a in recordDegree && b in recordDegree {
        assert EdgeIs(recordDegree, history, home, a, b);
        assert EdgeIs(recordDegree, history, home, b, a);
        DegreesSymmetric(history, home, a, b);
      }
      hide GraphIs;
    }

    lemma {:induction false} EdgeEnds(a: Key, b: Key)
      requires Stored() && a in recordDegree && b in recordDegree[a]
      ensures b in recordDegree
    {
      EdgeFacts(a, b);
    }

    /** The edge loop of the search: the neighbours not yet visited join the queue. */
    method PushNeighbours(key: Key, used: set<Key>, queue: seq<Key>) returns (q: seq<Key>)
      requires Stored() && key in recordDegree && forall a :: a in queue ==> a in recordDegree
      ensures Pushed(EdgeRelation(recordDegree), key, used, queue, q) && forall a :: a in q ==> a in recordDegree
    {
      hide Stored, Pushed, EdgeRelation;
      GraphFacts();
      q := queue;
      var edges := recordDegree[key];
      var left := edges.Keys;
      while left != {}
        invariant left <= edges.Keys
        invariant forall a :: a in queue ==> a in q
        invariant forall a :: a in q ==> (a in queue || a in edges) && a in recordDegree
        invariant forall b :: b in edges && b !in left && b !in used ==> b in q
        decreases |left|
      {
        var b := Pick(left);
        EdgeFacts(key, b);
        EdgeEnds(key, b);
        if edges[b].to !in used {
          q := q + [edges[b].to];
        }
        left := left - {b};
      }
      AllPushed(recordDegree, key, used, queue, q);
    }

    /** What the search has visited below `root` so far, and its queue. */
    ghost predicate Exploring(root: Key, before: set<Key>, clump: Clump, used: set<Key>, q: seq<Key>)
      reads `recordDegree, `history
    {
      && Searching(EdgeRelation(recordDegree), root, before, clump.keys, q) && CountsFit(history, clump)
      && used == before + Elements(clump.keys) && used <= recordDegree.Keys
      && forall a :: a in q ==> a in recordDegree
    }

    /** One round of the search at a key that was not visited before. */
    method Visit(root: Key, before: set<Key>, clump: Clump, used: set<Key>, q: seq<Key>)
      returns (more: Clump, now: set<Key>, next: seq<Key>)
      requires Stored() && Exploring(root, before, clump, used, q) && q != [] && q[0] !in used
      ensures Exploring(root, before, more, now, next) && |recordDegree.Keys - now| < |recordDegree.Keys - used|
    {
      hide Stored, Searching, Pushed, CountsFit, Elements, EdgeRelation;
      assert q[0] !in before && q[0] !in clump.keys && q[0] in recordDegree by {
        NotMember(clump.keys, q[0]);
      }
      var key := q[0];
      now := used + {key};
      HotFacts(key);
      more := WithRecord(clump, key, Get(hottestTuple, key));
      RecordAdded(history, clump, key);
      assert now == before + Elements(clump.keys + [key]);
      next := PushNeighbours(key, now, q[1..]);
      SearchVisit(EdgeRelation(recordDegree), root, before, clump.keys, q, next);
      Shrinks(recordDegree.Keys - used, recordDegree.Keys - now, key);
    }

    /** The inner loop of `my_find_clump`: everything that can be reached from one key and was not
        visited before. */
    method Explore(root: Key, before: set<Key>) returns (clump: Clump, used: set<Key>)
      requires Stored() && root in recordDegree && before <= recordDegree.Keys
      requires Closed(EdgeRelation(recordDegree), before)
      ensures Exploring(root, before, clump, used, [])
    {
      hide Stored, Searching, Closed, EdgeRelation, CountsFit;
      GraphFacts();
      ghost var edge := EdgeRelation(recordDegree);
      SearchStart(edge, root, before);
      NoCounts(history);
      clump, used := Clump([], [], 0), before;
      var q := [root];
      while q != []
        invariant Exploring(root, before, clump, used, q)
        decreases |recordDegree.Keys - used|, |q|
      {
        if q[0] in used {
          SearchSkip(edge, root, before, clump.keys, q);
          q := q[1..];
        } else {
          clump, used, q := Visit(root, before, clump, used, q);
        }
      }
    }

    method MyFindClump() returns (clumps: seq<Clump>)
      requires Stored()
      ensures Found(EdgeRelation(recordDegree), KeyLists(clumps), recordDegree.Keys)
      ensures forall i :: 0 <= i < |clumps| ==> CountsFit(history, clumps[i])
    {
      hide Stored, Found, Searching, CountsFit;
      GraphFacts();
      ghost var edge := EdgeRelation(recordDegree);
      FoundNone(edge);
      clumps := [];
      var used: set<Key> := {};
      var i := 0;
      while i < |hottestTupleIndexSeq|
        invariant 0 <= i <= |hottestTupleIndexSeq| && used <= recordDegree.Keys
        invariant Found(edge, KeyLists(clumps), used)
        invariant forall k :: 0 <= k < |clumps| ==> CountsFit(history, clumps[k])
        invariant forall k :: 0 <= k < i ==> hottestTupleIndexSeq[k] in used
      {
        FoundClosed(edge, KeyLists(clumps), used);
        var clump, now := Explore(hottestTupleIndexSeq[i], used);
        FoundMore(edge, hottestTupleIndexSeq[i], KeyLists(clumps), used, clump.keys);
        SearchDone(edge, hottestTupleIndexSeq[i], used, clump.keys);
        if |clump.keys| > 1 {
          clumps := clumps + [clump];
        }
        assert |clump.keys| > 1 ==> KeyLists(clumps) == KeyLists(clumps[..|clumps| - 1]) + [clump.keys];
        used := now;
        i := i + 1;
      }
      forall a | a in recordDegree ensures a in used {
        var k :| 0 <= k < |hottestTupleIndexSeq| && hottestTupleIndexSeq[k] == a;
        assert hottestTupleIndexSeq[k] in used;
      }
      assert used == recordDegree.Keys;
    }

    /** In the result of `my_find_clump` two different keys share a clump exactly when a chain of
        transactions links them. */
    lemma {:induction false} ClumpsAreChains(clumps: seq<Clump>, a: Key, b: Key)
      requires Stored() && Found(EdgeRelation(recordDegree), KeyLists(clumps), recordDegree.Keys) && a != b
      ensures (exists i :: 0 <= i < |clumps| && a in clumps[i].keys && b in clumps[i].keys)
          <==> Connected(LinkedBy(history), a, b)
    {
      var edge, link := EdgeRelation(recordDegree), LinkedBy(history);
      EdgesAreLinks();
      GraphFacts();
      hide Stored, Found;
      ClumpsAreComponents(edge, KeyLists(clumps), recordDegree.Keys, a, b);
      if Connected(edge, a, b) {
        ConnectedSame(edge, link, a, b);
      }
      if Connected(link, a, b) {
        ConnectedSame(link, edge, a, b);
      }
      assert forall i :: 0 <= i < |clumps| ==> KeyLists(clumps)[i] == clumps[i].keys;
    }

    lemma {:induction false} EdgesAreLinks()
      requires Stored()
      ensures forall a, b :: EdgeRelation(recordDegree)(a, b) <==> LinkedBy(history)(a, b)
    {
      forall a, b ensures EdgeRelation(recordDegree)(a, b) <==> LinkedBy(history)(a, b) {
        assert EdgeIs(recordDegree, history, home, a, b);
        CoPositive(history, a, b);
      }
    }

    // ---------- the stored graph and loads ----------

    /** After any history the stored edges are symmetric, and the stored load of every coordinator
        is what the stored counts and degrees add up to, exactly when no one-key transaction
        accessed a key away from coordinator 0. */
    lemma {:induction false} StoredGraphAddsUp()
      requires Valid()
      ensures forall a, b :: (HasEdge(recordDegree, a, b) <==> HasEdge(recordDegree, b, a))
                             && DegreeOf(recordDegree, a, b) == DegreeOf(recordDegree, b, a)
      ensures (forall c :: Get(nodeLoad, c) == StoredLoad(hottestTupleIndexSeq, recordDegree, hottestTuple, home, c))
              <==> SinglesAtZero(history, home)
    {
      forall a, b
        ensures HasEdge(recordDegree, a, b) <==> HasEdge(recordDegree, b, a)
        ensures DegreeOf(recordDegree, a, b) == DegreeOf(recordDegree, b, a)
      {
        assert EdgeIs(recordDegree, history, home, a, b) && EdgeIs(recordDegree, history, home, b, a);
        DegreesSymmetric(history, home, a, b);
      }
      LoadIsGraphLoad(hottestTupleIndexSeq, history, home);
      forall c
        ensures StoredLoad(hottestTupleIndexSeq, recordDegree, hottestTuple, home, c)
            == GraphLoad(hottestTupleIndexSeq, history, home, c)
      {
        StoredIsGraph(recordDegree, hottestTuple, nodeLoad, history, home, hottestTupleIndexSeq, c);
      }
      assert forall c :: Get(nodeLoad, c) == Load(history, home, c);
    }

    /** What the planner books when it moves one key away from its home. */
    method BookMove(key: Key, dest: int)
      requires Valid() && key in recordDegree && dest != home(key)
      modifies `nodeLoad
      ensures forall c :: Get(nodeLoad, c) == BookedLoad(hottestTupleIndexSeq, history, home, key, dest, c)
    {
      var src := home(key);
      var records := [Record(key, src)];
      assert records[..0] == [];
      var sent := CostDeltaForSender(records, dest, src);
      var received := CostDeltaForReceiver(records, dest);
      assert forall c :: Get(nodeLoad, c) == Load(history, home, c);
      nodeLoad := nodeLoad[src := Get(nodeLoad, src) + sent];
      nodeLoad := nodeLoad[dest := Get(nodeLoad, dest) + received];
    }

    /** The booked loads are those of the graph rebuilt with the key at its new place exactly when
        the key was never accessed together with another key of its old place, and never alone. */
    lemma {:induction false} BookedMoveIsExact(key: Key, dest: int)
      requires Covers(hottestTupleIndexSeq, history) && key in hottestTupleIndexSeq && dest != home(key)
      requires forall c :: Get(nodeLoad, c) == BookedLoad(hottestTupleIndexSeq, history, home, key, dest, c)
      ensures (forall c :: Get(nodeLoad, c) == Load(history, Moved(home, key, dest), c))
              <==> NoNeighbourAtHome(hottestTupleIndexSeq, history, home, key) && NeverAlone(history, key)
    {
      MoveIsExact(hottestTupleIndexSeq, history, home, key, dest);
    }

    // ---------- plans ----------

    ghost function Market(average: int): Setting
      reads `hottestTupleIndexSeq, `history
    {
      Setting(hottestTupleIndexSeq, history, home, average)
    }

    /** The records are stored keys at their places. */
    ghost predicate RecordsOk(records: seq<Record>)
      reads `recordDegree
    {
      forall i :: 0 <= i < |records| ==> records[i].key in recordDegree && records[i].src == home(records[i].key)
    }

    /** What is queued are stored keys with an edge back. */
    ghost predicate QueueOk()
      reads `recordDegree, `neighbours
    {
      QueueFits(recordDegree, home, neighbours)
    }

    /** No key is planned twice, and none that is planned or being planned is still queued. */
    ghost predicate PlansOk(tmp: seq<Key>)
      reads `moveTupleId, `neighbours, `movePlans
    {
      OncePlanned(moveTupleId, Targets(neighbours), PlanLists(movePlans), tmp)
    }

    /** The edges of a key lead to its neighbours in the history. */
    lemma {:induction false} NeighbourFacts(key: Key)
      requires Stored() && key in recordDegree
      ensures forall b :: b in recordDegree[key] <==> EverTogether(history, key, b)
      ensures forall b :: b in recordDegree[key] ==>
                && EdgeFits(home, key, b, recordDegree[key][b])
                && recordDegree[key][b].to == b && recordDegree[key][b].toId == home(b)
                && recordDegree[key][b].degree == Degree(history, home, key, b)
                && b in recordDegree && recordDegree[b] != map[]
    {
      forall b
        ensures b in recordDegree[key] <==> EverTogether(history, key, b)
        ensures b in recordDegree[key] ==>
                  && EdgeFits(home, key, b, recordDegree[key][b])
                  && recordDegree[key][b].to == b && recordDegree[key][b].toId == home(b)
                  && recordDegree[key][b].degree == Degree(history, home, key, b)
                  && b in recordDegree && recordDegree[b] != map[]
      {
        assert EdgeIs(recordDegree, history, home, key, b) && EdgeIs(recordDegree, history, home, b, key);
        CoPositive(history, key, b);
        DegreesSymmetric(history, home, key, b);
        assert key in recordDegree && b in recordDegree[key] ==> key in recordDegree[b];
      }
    }

    /** Marks the end of an edge and queues the edge. */
    method QueueNeighbour(e: Edge, ghost tmp: seq<Key>)
      requires PlansOk(tmp) && QueueOk() && moveTupleId <= recordDegree.Keys && e.to !in moveTupleId
      requires e.to in recordDegree && e.toId == home(e.to) && recordDegree[e.to] != map[]
      modifies `moveTupleId, `neighbours
      ensures PlansOk(tmp) && QueueOk() && moveTupleId <= recordDegree.Keys
      ensures moveTupleId == old(moveTupleId) + {e.to} && neighbours == old(neighbours) + [e]
    {
      hide OncePlanned, QueueFits;
      NeighbourQueued(moveTupleId, neighbours, PlanLists(movePlans), tmp, e);
      QueueFitsOne(recordDegree, home, neighbours, e);
      moveTupleId := moveTupleId + {e.to};
      neighbours := neighbours + [e];
    }

    /** The edge loop of `get_neighbor_cached`: one edge to each neighbour that is not marked joins the
        queue, and all neighbours are marked. */
    method QueueNeighbours(key: Key, ghost tmp: seq<Key>, ghost marked: set<Key>)
      requires Stored() && key in recordDegree && moveTupleId <= recordDegree.Keys && PlansOk(tmp) && QueueOk()
      requires moveTupleId == marked + {key}
      modifies `moveTupleId, `neighbours
      ensures PlansOk(tmp) && QueueOk() && marked + {key} <= moveTupleId <= recordDegree.Keys
      ensures Marked(history, key, marked, moveTupleId)
      ensures Joined(history, home, key, marked, old(neighbours), neighbours)
    {
      hide Stored, PlansOk, QueueOk, EverTogether, EdgeFits, QueuedFrom, NewEdges;
      NeighbourFacts(key);
      var edges := recordDegree[key];
      var left := edges.Keys;
      ghost var more: seq<Edge> := [];
      NoneQueued(edges, marked, key);
      while left != {}
        invariant left <= edges.Keys && PlansOk(tmp) && QueueOk() && moveTupleId <= recordDegree.Keys
        invariant moveTupleId == marked + {key} + (edges.Keys - left)
        invariant neighbours == old(neighbours) + more && QueuedFrom(edges, left, marked, key, more)
        decreases |left|
      {
        var b := Pick(left);
        QueueOne(edges, left, marked, key, more, b);
        if edges[b].to !in moveTupleId {
          QueueNeighbour(edges[b], tmp);
          more := more + [edges[b]];
        }
        left := left - {b};
      }
      QueuedAll(edges, marked, key, more);
    }

    lemma {:induction false} QueuedAll(edges: map<Key, Edge>, marked: set<Key>, key: Key, more: seq<Edge>)
      requires Stored() && key in recordDegree && edges == recordDegree[key] && QueuedFrom(edges, {}, marked, key, more)
      ensures NewEdges(history, home, key, marked, more)
    {
      hide Stored, EverTogether, Distinct, EdgeFits;
      NeighbourFacts(key);
    }

    /** Queues the neighbours of a key that was not handled before; a key from the queue is marked
        already, so its own neighbours are never looked at. */
    method GetNeighborCached(key: Key, ghost tmp: seq<Key>)
      requires Stored() && key in recordDegree && moveTupleId <= recordDegree.Keys && PlansOk(tmp) && QueueOk()
      modifies `moveTupleId, `neighbours
      ensures PlansOk(tmp) && QueueOk() && old(moveTupleId) <= moveTupleId <= recordDegree.Keys
      ensures key in old(moveTupleId) ==> moveTupleId == old(moveTupleId) && neighbours == old(neighbours)
      ensures key !in old(moveTupleId) ==>
                && Marked(history, key, old(moveTupleId), moveTupleId)
                && Joined(history, home, key, old(moveTupleId), old(neighbours), neighbours)
                && FreshKey(Targets(neighbours), PlanLists(movePlans), key)
    {
      hide Stored, OncePlanned, Targets, QueueOk, Marked, EverTogether;
      if key !in moveTupleId {
        KeyMarked(moveTupleId, Targets(neighbours), PlanLists(movePlans), tmp, key);
        ghost var marked, queue := moveTupleId, neighbours;
        moveTupleId := moveTupleId + {key};
        QueueNeighbours(key, tmp, marked);
        NotJoined(history, home, key, marked, queue, neighbours);
      }
    }

    /** The queued edge with the highest degree. */
    method PopTop() returns (top: Edge, ghost i: nat)
      requires neighbours != []
      modifies `neighbours
      ensures i < |old(neighbours)| && top == old(neighbours)[i]
      ensures neighbours == old(neighbours)[..i] + old(neighbours)[i + 1..]
      ensures forall e :: e in old(neighbours) ==> e.degree <= top.degree
    {
      var best := TopIndex(neighbours);
      top, i := neighbours[best], best;
      neighbours := neighbours[..best] + neighbours[best + 1..];
    }

    method IsFeasible(p: Plan, average: int) returns (ok: bool)
      requires Stored() && RecordsOk(p.records) && p.dest in nodeLoad
      ensures ok == Feasible(Market(average), nodeLoad, p)
    {
      hide Stored;
      var delta := CostDeltaForReceiver(p.records, p.dest);
      ok := nodeLoad[p.dest] + delta < average || delta < 0;
    }

    /** The coordinator, not `from`, that pays least. */
    method InitialDestPartition(records: seq<Record>, from: int, ghost average: int) returns (dest: int)
      requires Stored() && RecordsOk(records) && exists c :: c in nodeLoad && c != from
      ensures Cheapest(Market(average), nodeLoad.Keys, records, from, dest) && dest in nodeLoad
    {
      hide Stored, ReceiverDelta, NoDearer, ReceiverCosts;
      ghost var g := Market(average);
      var left, isFirst, minDelta := nodeLoad.Keys, false, 0;
      dest := -1;
      while left != {}
        invariant left <= nodeLoad.Keys && forall a, b :: a in nodeLoad && a !in left && b in left ==> a < b
        invariant !isFirst ==> forall c :: c in nodeLoad && c !in left ==> c == from
        invariant isFirst ==>
                    && dest in nodeLoad && dest !in left && dest != from
                    && minDelta == ReceiverDelta(g, Plan(records, dest))
                    && forall c :: c in nodeLoad && c !in left && c != from ==> NoDearer(g, records, dest, c)
        decreases |left|
      {
        var c := Least(left);
        if c != from {
          var delta := CostDeltaForReceiver(records, c);
          DeltaIs(g, records, c, delta);
          Compared(g, records, dest, c);
          if !isFirst || minDelta > delta {
            dest, minDelta, isFirst := c, delta, true;
          }
        }
        left := left - {c};
      }
    }

    method LeastLoadedPartition() returns (dest: int)
      requires nodeLoad != map[]
      ensures LeastLoaded(nodeLoad, dest)
    {
      var left := nodeLoad.Keys;
      dest := Least(left);
      left := left - {dest};
      while left != {}
        invariant left <= nodeLoad.Keys && forall a, b :: a in nodeLoad && a !in left && b in left ==> a < b
        invariant dest in nodeLoad && dest !in left
        invariant forall c :: c in nodeLoad && c !in left ==>
                    nodeLoad[dest] < nodeLoad[c] || (nodeLoad[dest] == nodeLoad[c] && dest <= c)
        decreases |left|
      {
        var c := Least(left);
        if nodeLoad[c] < nodeLoad[dest] {
          dest := c;
        }
        left := left - {c};
      }
    }

    lemma {:induction false} RelatedStep(key: Key, left: set<Key>, b: Key, c: int)
      requires Stored() && key in recordDegree && left <= recordDegree[key].Keys && b in left
      ensures Visited(hottestTupleIndexSeq, RelatedTerm(history, home, key, c), recordDegree[key].Keys, left - {b})
           == Visited(hottestTupleIndexSeq, RelatedTerm(history, home, key, c), recordDegree[key].Keys, left)
              + if recordDegree[key][b].toId == c then recordDegree[key][b].degree else 0
    {
      hide Stored, Visited;
      OneEdge(key, left, b, RelatedTerm(history, home, key, c));
    }

    lemma {:induction false} RelatedEnds(key: Key, c: int)
      requires Stored() && key in recordDegree
      ensures Visited(hottestTupleIndexSeq, RelatedTerm(history, home, key, c), recordDegree[key].Keys, {})
           == Sum(hottestTupleIndexSeq, RelatedTerm(history, home, key, c))
      ensures Visited(hottestTupleIndexSeq, RelatedTerm(history, home, key, c), recordDegree[key].Keys,
                      recordDegree[key].Keys) == 0
    {
      hide Stored, Visited, Sum;
      AllEdges(key, RelatedTerm(history, home, key, c));
    }

    /** The edges of one record join the tally of `get_most_related_coordinator`. */
    method RelatedEdges(key: Key, before: Tally) returns (tally: Tally)
      requires Stored() && key in recordDegree && Leads(before)
      ensures Leads(tally)
      ensures forall c :: Get(tally.totals, c)
                == Get(before.totals, c) + Sum(hottestTupleIndexSeq, RelatedTerm(history, home, key, c))
      ensures forall c :: c in tally.totals <==>
                c in before.totals || exists b :: EverTogether(history, key, b) && home(b) == c
    {
      hide Stored, Visited, Sum, EverTogether, RelatedTerm, Leads;
      NeighbourFacts(key);
      ghost var order := hottestTupleIndexSeq;
      var edges := recordDegree[key];
      var left := edges.Keys;
      tally := before;
      forall c ensures Visited(order, RelatedTerm(history, home, key, c), edges.Keys, edges.Keys) == 0 {
        RelatedEnds(key, c);
      }
      while left != {}
        invariant left <= edges.Keys && Leads(tally)
        invariant forall c :: Get(tally.totals, c)
                    == Get(before.totals, c) + Visited(order, RelatedTerm(history, home, key, c), edges.Keys, left)
        invariant forall c :: c in tally.totals <==>
                    c in before.totals || exists b :: b in edges.Keys - left && home(b) == c
        decreases |left|
      {
        var b := Pick(left);
        DegreesSymmetric(history, home, key, b);
        forall c
          ensures Visited(order, RelatedTerm(history, home, key, c), edges.Keys, left - {b})
               == Visited(order, RelatedTerm(history, home, key, c), edges.Keys, left)
                  + if edges[b].toId == c then edges[b].degree else 0
        {
          RelatedStep(key, left, b, c);
        }
        tally := Counted(tally, edges[b].toId, edges[b].degree);
        left := left - {b};
      }
      forall c
        ensures Visited(order, RelatedTerm(history, home, key, c), edges.Keys, {})
             == Sum(order, RelatedTerm(history, home, key, c))
      {
        RelatedEnds(key, c);
      }
    }

    method GetMostRelatedCoordinator(records: seq<Record>, ghost average: int) returns (dest: int)
      requires Stored() && RecordsOk(records)
      requires exists i :: 0 <= i < |records| && recordDegree[records[i].key] != map[]
      ensures MostRelated(Market(average), records, dest)
    {
      hide Stored, Leads, RelatedTerm, Sum, EverTogether;
      ghost var g := Market(average);
      var tally := Tally(map[], -1, -1);
      NoTally();
      var i := 0;
      while i < |records|
        invariant 0 <= i <= |records| && Leads(tally)
        invariant forall c :: Get(tally.totals, c) == Related(g, records[..i], c)
        invariant forall c :: c in tally.totals <==> Reaches(g, records[..i], c)
      {
        ghost var before := tally;
        tally := RelatedEdges(records[i].key, tally);
        forall c
          ensures Related(g, records[..i + 1], c) == Related(g, records[..i], c)
                    + Sum(g.order, RelatedTerm(g.history, g.home, records[i].key, c))
          ensures Reaches(g, records[..i + 1], c) <==>
                    || Reaches(g, records[..i], c)
                    || exists b :: EverTogether(history, records[i].key, b) && home(b) == c
        {
          OneMoreRecord(g, records, i, c);
        }
        i := i + 1;
      }
      assert records[..i] == records;
      ghost var k :| 0 <= k < |records| && recordDegree[records[k].key] != map[];
      NeighbourFacts(records[k].key);
      ghost var b := SomeKey(recordDegree[records[k].key]);
      assert Reaches(g, records, home(b));
      dest := tally.best;
      LeadIsMost(g, records, tally);
    }

    /** The most related coordinator has a load. */
    lemma {:induction false} MostRelatedIsHoused(records: seq<Record>, average: int, dest: int)
      requires Stored() && RecordsOk(records) && Housed(recordDegree, nodeLoad, home)
      requires MostRelated(Market(average), records, dest)
      ensures dest in nodeLoad
    {
      hide Stored, EverTogether, Related;
      var i, b :| 0 <= i < |records| && EverTogether(history, records[i].key, b) && home(b) == dest;
      NeighbourFacts(records[i].key);
      assert HasEdge(recordDegree, records[i].key, b);
    }

    method UpdateDest(p: Plan, average: int) returns (dest: int)
      requires Stored() && RecordsOk(p.records) && p.dest in nodeLoad && Housed(recordDegree, nodeLoad, home)
      requires exists i :: 0 <= i < |p.records| && recordDegree[p.records[i].key] != map[]
      ensures Redirected(Market(average), nodeLoad, p, dest) && dest in nodeLoad
    {
      hide Stored, Feasible, MostRelated, Housed;
      dest := p.dest;
      var ok := IsFeasible(p, average);
      if !ok {
        var a := GetMostRelatedCoordinator(p.records, average);
        MostRelatedIsHoused(p.records, average, a);
        var okThere := IsFeasible(p.(dest := a), average);
        if okThere {
          dest := a;
        } else {
          var l := LeastLoadedPartition();
          okThere := IsFeasible(p.(dest := l), average);
          if p.dest != l && okThere {
            dest := l;
          }
          assert p.(dest := p.dest) == p;
        }
      }
    }

    /** Picks the next key of the heap that was not handled before, and starts a plan with it. */
    method StartPlan(heap: seq<Key>, pos: nat, from: int, average: int, ghost desk: Desk)
      returns (tmp: Plan, next: nat, ghost m: Making)
      requires Stored() && moveTupleId <= recordDegree.Keys && PlansOk([]) && QueueOk() && pos <= |heap|
      requires HeapOk(heap, from) && (exists c :: c in nodeLoad && c != from) && OnDesk(desk)
      requires (forall i :: 0 <= i < pos ==> heap[i] in moveTupleId) && Get(nodeLoad, from) > average
      modifies `moveTupleId, `neighbours
      ensures PlansOk(KeysOf(tmp.records)) && QueueOk() && old(moveTupleId) <= moveTupleId <= recordDegree.Keys
      ensures next <= |heap| && forall i :: 0 <= i < next ==> heap[i] in moveTupleId
      ensures tmp.records == [] ==>
                moveTupleId == old(moveTupleId) && neighbours == old(neighbours) && next == |heap|
      ensures tmp.records != [] ==>
                && RecordsOk(tmp.records) && m.stages == [tmp] && m.rest == neighbours && |tmp.records| == 1
                && tmp.dest in nodeLoad
                && tmp.records[0].key in moveTupleId && tmp.records[0].key !in old(moveTupleId)
                && Begun(Market(average), heap, from, desk, m, moveTupleId)
                && Grown(Market(average), nodeLoad, from, m)
    {
      hide Stored, OncePlanned, Cheapest, EverTogether, Joined, Grown;
      ghost var g := Market(average);
      tmp, m := Plan([], -1), Making(Record(0, from), [], [], [], []);
      next := NextFresh(heap, pos, moveTupleId);
      if next < |heap| {
        var key := heap[next];
        tmp := Plan([Record(key, from)], from);
        var dest := InitialDestPartition(tmp.records, from, average);
        tmp := tmp.(dest := dest);
        GetNeighborCached(key, []);
        PlanStarted(moveTupleId, Targets(neighbours), PlanLists(movePlans), key);
        m := Making(Record(key, from), neighbours, [], neighbours, [tmp]);
        GrownFirst(g, nodeLoad, from, Record(key, from), neighbours, dest);
        assert KeysOf(tmp.records) == [key];
        assert FirstFresh(heap, desk.marked, key);
      }
    }

    /** Adds the best queued neighbour to the plan in the making; the destination may change. */
    method ExtendPlan(tmp: Plan, from: int, average: int, ghost m: Making) returns (more: Plan, ghost m1: Making)
      requires Stored() && moveTupleId <= recordDegree.Keys && PlansOk(KeysOf(tmp.records)) && QueueOk()
      requires RecordsOk(tmp.records) && neighbours != [] && tmp.dest in nodeLoad
      requires Housed(recordDegree, nodeLoad, home)
      requires Grown(Market(average), nodeLoad, from, m) && m.stages[|m.stages| - 1] == tmp && m.rest == neighbours
      modifies `moveTupleId, `neighbours
      ensures PlansOk(KeysOf(more.records)) && QueueOk() && RecordsOk(more.records)
      ensures moveTupleId == old(moveTupleId) && |neighbours| < |old(neighbours)|
      ensures more.dest in nodeLoad && more.records != []
      ensures Grown(Market(average), nodeLoad, from, m1) && m1.rest == neighbours && m1.stages == m.stages + [more]
      ensures m1.root == m.root && m1.queue == m.queue
    {
      hide Stored, OncePlanned, Grown, Redirected, Housed;
      ghost var g, queue := Market(average), neighbours;
      var top: Edge;
      ghost var i: nat;
      top, i := PopTop();
      NeighbourTaken(moveTupleId, queue, PlanLists(movePlans), KeysOf(tmp.records), i);
      more := tmp.(records := tmp.records + [Record(top.to, top.toId)]);
      assert KeysOf(more.records) == KeysOf(tmp.records) + [top.to];
      QueueFitsRest(recordDegree, home, queue, i);
      assert recordDegree[more.records[|tmp.records|].key] != map[];
      var dest := UpdateDest(more, average);
      more := more.(dest := dest);
      m1 := Grow(m, i, more);
      GrownMore(g, nodeLoad, from, m, i, more);
      GetNeighborCached(top.to, KeysOf(more.records));
    }

    /** The feasibility test at the end of a round. */
    method Judge(tmp: Plan, candidate: Plan, lookAhead: int, average: int, ghost start: nat, ghost stages: seq<Plan>)
      returns (best: Plan, left: int)
      requires Stored() && RecordsOk(tmp.records) && tmp.dest in nodeLoad && stages != [] && stages[|stages| - 1] == tmp
      requires forall i :: 0 <= i < |stages| ==> stages[i].records != []
      requires Judged(Market(average), nodeLoad, start, stages[..|stages| - 1], candidate, lookAhead)
      ensures Judged(Market(average), nodeLoad, start, stages, best, left) && lookAhead - 1 <= left <= lookAhead
      ensures left < lookAhead ==> best.records != []
    {
      hide Stored, Feasible;
      best, left := candidate, lookAhead;
      var ok := IsFeasible(tmp, average);
      if ok {
        best := tmp;
      } else if candidate.records != [] {
        left := lookAhead - 1;
      }
    }

    /** Hands out the candidate, a beginning of the plan in the making, and books it. */
    method PushPlan(candidate: Plan, from: int, ghost average: int, ghost tmp: seq<Key>)
      requires Stored() && RecordsOk(candidate.records) && PlansOk(tmp)
      requires KeysOf(candidate.records) <= tmp && candidate.records != []
      modifies `movePlans, `nodeLoad
      ensures movePlans == old(movePlans) + [candidate] && PlansOk([])
      ensures nodeLoad == Booked(Market(average), old(nodeLoad), from, candidate)
      ensures nodeLoad.Keys >= old(nodeLoad).Keys
    {
      hide Stored, OncePlanned;
      PlanPushed(moveTupleId, Targets(neighbours), PlanLists(movePlans), tmp, KeysOf(candidate.records));
      assert PlanLists(movePlans + [candidate]) == PlanLists(movePlans) + [KeysOf(candidate.records)];
      movePlans := movePlans + [candidate];
      Book(candidate, from, average);
    }

    /** The costs of a plan are added to the loads of its sender and its destination. */
    method Book(p: Plan, from: int, ghost average: int)
      requires Stored() && RecordsOk(p.records)
      modifies `nodeLoad
      ensures nodeLoad == Booked(Market(average), old(nodeLoad), from, p) && nodeLoad.Keys >= old(nodeLoad).Keys
    {
      hide Stored, ReceiverCosts, SenderCosts;
      var sent := CostDeltaForSender(p.records, p.dest, from);
      nodeLoad := nodeLoad[from := Get(nodeLoad, from) + sent];
      var received := CostDeltaForReceiver(p.records, p.dest);
      nodeLoad := nodeLoad[p.dest := Get(nodeLoad, p.dest) + received];
    }

    ghost predicate HeapOk(heap: seq<Key>, from: int)
      reads `recordDegree
    {
      forall i :: 0 <= i < |heap| ==> heap[i] in recordDegree && home(heap[i]) == from
    }

    /** What the planner keeps is what lies on this desk. */
    ghost predicate OnDesk(desk: Desk)
      reads `moveTupleId, `neighbours, `nodeLoad, `movePlans
    {
      desk == Desk(moveTupleId, neighbours, nodeLoad, movePlans)
    }

    /** The plan `tmp` is in the making, as far as `m` says. */
    ghost predicate InTheMaking(average: int, heap: seq<Key>, from: int, desk: Desk, m: Making, tmp: Plan)
      reads this
    {
      && RecordsOk(tmp.records) && PlansOk(KeysOf(tmp.records)) && tmp.dest in nodeLoad
      && Begun(Market(average), heap, from, desk, m, moveTupleId) && Grown(Market(average), nodeLoad, from, m)
      && m.rest == neighbours && m.stages[|m.stages| - 1] == tmp
      && nodeLoad == desk.loads && movePlans == desk.plans
    }

    /** Hands out the best stage of a plan that is complete. */
    method Deliver(candidate: Plan, tmp: Plan, heap: seq<Key>, from: int, ghost average: int, ghost lookAhead: nat,
        ghost desks: seq<Desk>, ghost ms: seq<Making>, ghost m: Making)
      returns (ghost desks1: seq<Desk>, ghost ms1: seq<Making>)
      requires Stored() && PlansMade(Market(average), heap, from, lookAhead, desks, ms)
      requires InTheMaking(average, heap, from, desks[|ms|], m, tmp)
      requires Complete(Market(average), nodeLoad, lookAhead, m) && Housed(recordDegree, nodeLoad, home)
      requires candidate == m.stages[Best(Market(average), nodeLoad, m.stages)]
      modifies `movePlans, `nodeLoad
      ensures PlansMade(Market(average), heap, from, lookAhead, desks1, ms1) && OnDesk(desks1[|ms1|])
      ensures desks <= desks1 && |ms1| == |ms| + 1
      ensures PlansOk([]) && nodeLoad.Keys >= old(nodeLoad).Keys && Housed(recordDegree, nodeLoad, home)
    {
      hide Stored, PlansOk, Begun, Grown, Housed;
      ghost var g, loads := Market(average), nodeLoad;
      ghost var best := Best(g, nodeLoad, m.stages);
      StagesGrow(g, nodeLoad, from, m, best, |m.stages| - 1);
      PushPlan(candidate, from, average, KeysOf(tmp.records));
      StillHoused(loads);
      ghost var after := Desk(moveTupleId, neighbours, nodeLoad, movePlans);
      OnePlanMore(g, heap, from, lookAhead, desks, ms, m, after);
      desks1, ms1 := desks + [after], ms + [m];
    }

    lemma {:induction false} StillHoused(loads: Loads)
      requires Housed(recordDegree, loads, home) && nodeLoad.Keys >= loads.Keys
      ensures Housed(recordDegree, nodeLoad, home)
    {
    }

    /** Where the loop stands: between two plans, or with a plan in the making. */
    ghost predicate Working(average: int, heap: seq<Key>, from: int, start: nat, desks: seq<Desk>, ms: seq<Making>,
        m: Making, tmp: Plan, candidate: Plan, lookAhead: int)
      reads this
    {
      && QueueOk() && moveTupleId <= recordDegree.Keys && Housed(recordDegree, nodeLoad, home)
      && PlansMade(Market(average), heap, from, start, desks, ms) && lookAhead > 0 && start > 0
      && (tmp.records == [] ==>
            OnDesk(desks[|ms|]) && PlansOk([]) && candidate == Plan([], -1) && lookAhead == start)
      && (tmp.records != [] ==>
            && InTheMaking(average, heap, from, desks[|ms|], m, tmp)
            && Judged(Market(average), nodeLoad, start, m.stages, candidate, lookAhead))
    }

    /** A call is over: what its plans were, and how it ended. */
    ghost predicate IsOver(average: int, heap: seq<Key>, from: int, start: nat, desks: seq<Desk>, ms: seq<Making>)
      reads this
    {
      && PlansOk([]) && QueueOk() && moveTupleId <= recordDegree.Keys && Housed(recordDegree, nodeLoad, home)
      && PlansMade(Market(average), heap, from, start, desks, ms)
      && Ended(Market(average), heap, from, desks[|ms|], Desk(moveTupleId, neighbours, nodeLoad, movePlans))
    }

    lemma {:induction false} EndedByHeap(average: int, heap: seq<Key>, from: int, desk: Desk)
      requires OnDesk(desk) && forall i :: 0 <= i < |heap| ==> heap[i] in moveTupleId
      ensures Ended(Market(average), heap, from, desk, Desk(moveTupleId, neighbours, nodeLoad, movePlans))
    {
      hide GaveUp;
    }

    lemma {:induction false} EndedByLoad(average: int, heap: seq<Key>, from: int, start: nat, desks: seq<Desk>,
            ms: seq<Making>, m: Making, tmp: Plan, candidate: Plan, lookAhead: int)
      requires Working(average, heap, from, start, desks, ms, m, tmp, candidate, lookAhead)
      requires Get(nodeLoad, from) <= average
      ensures IsOver(average, heap, from, start, desks, ms)
    {
      hide Grown, Joined, Marked, FirstFresh, PlanMade, GaveUp, PlansOk, QueueOk;
    }

    lemma {:induction false} EndedByGivingUp(average: int, heap: seq<Key>, from: int, start: nat, desks: seq<Desk>,
            ms: seq<Making>, m: Making, tmp: Plan, candidate: Plan, lookAhead: int)
      requires Working(average, heap, from, start, desks, ms, m, tmp, candidate, lookAhead)
      requires tmp.records != [] && candidate.records == [] && neighbours == []
      ensures IsOver(average, heap, from, start, desks, ms)
    {
      hide Grown, Begun, PlanMade, PlansOk, QueueOk, GivenUp;
      var g, end := Market(average), Desk(moveTupleId, neighbours, nodeLoad, movePlans);
      NoStageEmpty(g, nodeLoad, from, m);
      CompleteAtEnd(g, nodeLoad, start, m, candidate, lookAhead);
      ForgetPlan(KeysOf(tmp.records));
      assert GaveUp(g, heap, from, desks[|ms|], m, end);
    }

    lemma {:induction false} StartsWorking(average: int, heap: seq<Key>, from: int, start: nat, m: Making)
      requires QueueOk() && moveTupleId <= recordDegree.Keys && Housed(recordDegree, nodeLoad, home) && PlansOk([])
      requires start > 0
      ensures Working(average, heap, from, start, [Desk(moveTupleId, neighbours, nodeLoad, movePlans)], [], m,
                      Plan([], -1), Plan([], -1), start)
    {
      hide QueueOk, PlansOk, Housed;
      NoPlanMade(Market(average), heap, from, start, Desk(moveTupleId, neighbours, nodeLoad, movePlans));
    }

    /** A plan has a new stage, which is still to be judged. */
    ghost predicate Unjudged(average: int, heap: seq<Key>, from: int, start: nat, desks: seq<Desk>, ms: seq<Making>,
        m: Making, tmp: Plan, candidate: Plan, lookAhead: int)
      reads this
    {
      && QueueOk() && moveTupleId <= recordDegree.Keys && Housed(recordDegree, nodeLoad, home)
      && PlansMade(Market(average), heap, from, start, desks, ms) && lookAhead > 0 && tmp.records != [] && start > 0
      && InTheMaking(average, heap, from, desks[|ms|], m, tmp)
      && m.stages != [] && Judged(Market(average), nodeLoad, start, m.stages[..|m.stages| - 1], candidate, lookAhead)
    }

    /** The first branch of the loop, between two plans. */
    method FirstStage(heap: seq<Key>, pos: nat, from: int, average: int, ghost start: nat, ghost desks: seq<Desk>,
        ghost ms: seq<Making>, ghost m0: Making, was: Plan, candidate: Plan, lookAhead: int)
      returns (tmp: Plan, next: nat, ghost m: Making)
      requires Stored() && HeapOk(heap, from) && (exists c :: c in nodeLoad && c != from) && was.records == []
      requires Working(average, heap, from, start, desks, ms, m0, was, candidate, lookAhead)
      requires pos <= |heap| && (forall i :: 0 <= i < pos ==> heap[i] in moveTupleId) && Get(nodeLoad, from) > average
      modifies `moveTupleId, `neighbours
      ensures next <= |heap| && forall i :: 0 <= i < next ==> heap[i] in moveTupleId
      ensures tmp.records != [] ==>
                && Unjudged(average, heap, from, start, desks, ms, m, tmp, candidate, lookAhead)
                && |recordDegree.Keys - moveTupleId| < |recordDegree.Keys - old(moveTupleId)|
      ensures tmp.records == [] ==> IsOver(average, heap, from, start, desks, ms)
    {
      hide Stored, PlansOk, QueueOk, Housed, PlanMade, Begun, Grown;
      tmp, next, m := StartPlan(heap, pos, from, average, desks[|ms|]);
      if tmp.records == [] {
        EndedByHeap(average, heap, from, desks[|ms|]);
      } else {
        FewerLeftBy(recordDegree.Keys, old(moveTupleId), moveTupleId, tmp.records[0].key);
      }
    }

    /** The second branch: one more key from the queue. */
    method NextStage(heap: seq<Key>, from: int, average: int, ghost start: nat, ghost desks: seq<Desk>,
        ghost ms: seq<Making>, ghost m0: Making, was: Plan, candidate: Plan, lookAhead: int)
      returns (tmp: Plan, ghost m: Making)
      requires Stored() && neighbours != [] && was.records != []
      requires Working(average, heap, from, start, desks, ms, m0, was, candidate, lookAhead)
      modifies `moveTupleId, `neighbours
      ensures Unjudged(average, heap, from, start, desks, ms, m, tmp, candidate, lookAhead)
      ensures moveTupleId == old(moveTupleId) && |neighbours| < |old(neighbours)|
    {
      hide Stored, PlansOk, QueueOk, Housed, PlanMade, FirstFresh, Joined, Marked, Judged;
      tmp, m := ExtendPlan(was, from, average, m0);
      assert m.stages[..|m.stages| - 1] == m0.stages;
    }

    /** The third branch: the queue is empty. */
    method LastStage(heap: seq<Key>, from: int, ghost average: int, ghost start: nat, ghost desks: seq<Desk>,
        ghost ms: seq<Making>, ghost m: Making, tmp: Plan, candidate: Plan, lookAhead: int)
      returns (ghost desks1: seq<Desk>, ghost ms1: seq<Making>)
      requires Stored() && neighbours == [] && tmp.records != [] && candidate.records != []
      requires Working(average, heap, from, start, desks, ms, m, tmp, candidate, lookAhead)
      modifies `movePlans, `nodeLoad
      ensures |ms1| == |ms| + 1 && desks <= desks1 && nodeLoad.Keys >= old(nodeLoad).Keys
      ensures Working(average, heap, from, start, desks1, ms1, m, Plan([], -1), Plan([], -1), start)
    {
      hide Stored, PlansOk, QueueOk, Housed, PlanMade, Judged;
      ghost var g := Market(average);
      CompleteAtEnd(g, nodeLoad, start, m, candidate, lookAhead);
      desks1, ms1 := Deliver(candidate, tmp, heap, from, average, start, desks, ms, m);
    }

    /** The rest of the loop's body: the new stage is judged, and then the plan may be handed out. */
    method JudgeStage(heap: seq<Key>, from: int, average: int, start: nat, ghost desks: seq<Desk>,
        ghost ms: seq<Making>, ghost m: Making, stage: Plan, was: Plan, left: int)
      returns (tmp: Plan, candidate: Plan, lookAhead: int, ghost desks1: seq<Desk>, ghost ms1: seq<Making>)
      requires Stored() && Unjudged(average, heap, from, start, desks, ms, m, stage, was, left)
      modifies `movePlans, `nodeLoad
      ensures nodeLoad.Keys >= old(nodeLoad).Keys && desks <= desks1
      ensures Working(average, heap, from, start, desks1, ms1, m, tmp, candidate, lookAhead)
      ensures |tmp.records| <= |stage.records| && |ms1| == |ms| + if tmp.records == [] then 1 else 0
    {
      hide Stored, PlansOk, QueueOk, Housed, PlanMade, PlansMade, Begun, Grown, Judged, Complete;
      ghost var g := Market(average);
      tmp, desks1, ms1 := stage, desks, ms;
      NoStageEmpty(g, nodeLoad, from, m);
      candidate, lookAhead := Judge(tmp, was, left, average, start, m.stages);
      if lookAhead == 0 {
        CompleteByFailures(g, nodeLoad, start, m, was, left, candidate);
        desks1, ms1 := Deliver(candidate, tmp, heap, from, average, start, desks, ms, m);
        candidate, tmp, lookAhead := Plan([], -1), Plan([], -1), start;
      }
    }

    lemma {:induction false} ForgetPlan(tmp: seq<Key>)
      requires PlansOk(tmp)
      ensures PlansOk([])
    {
    }

    /** The body of the loop. A plan begins, grows, or is handed out; `over` is set where the source
        leaves the loop. */
    method PlanningRound(heap: seq<Key>, pos: nat, from: int, average: int, start: nat, was: Plan, best: Plan,
        left: int, ghost desks: seq<Desk>, ghost ms: seq<Making>, ghost m: Making)
      returns (over: bool, tmp: Plan, candidate: Plan, lookAhead: int, next: nat, made: nat, ghost desks1: seq<Desk>,
        ghost ms1: seq<Making>, ghost m1: Making)
      requires Stored() && HeapOk(heap, from) && (exists c :: c in nodeLoad && c != from)
      requires Working(average, heap, from, start, desks, ms, m, was, best, left)
      requires pos <= |heap| && (forall i :: 0 <= i < pos ==> heap[i] in moveTupleId) && Get(nodeLoad, from) > average
      modifies `moveTupleId, `neighbours, `movePlans, `nodeLoad
      ensures if over then IsOver(average, heap, from, start, desks1, ms1)
              else Working(average, heap, from, start, desks1, ms1, m1, tmp, candidate, lookAhead)
      ensures next <= |heap| && forall i :: 0 <= i < next ==> heap[i] in moveTupleId
      ensures nodeLoad.Keys >= old(nodeLoad).Keys && |ms1| == |ms| + made && desks <= desks1
      ensures !over ==>
                || |recordDegree.Keys - moveTupleId| < |recordDegree.Keys - old(moveTupleId)|
                || (moveTupleId == old(moveTupleId)
                    && (|neighbours| < |old(neighbours)|
                        || (neighbours == old(neighbours) && |tmp.records| < |was.records|)))
    {
      hide Stored, PlansOk, QueueOk, Housed, Working, Unjudged, HeapOk, IsOver;
      over, tmp, candidate, lookAhead, next, made := false, was, best, left, pos, 0;
      desks1, ms1, m1 := desks, ms, m;
      if tmp.records == [] {
        tmp, next, m1 := FirstStage(heap, pos, from, average, start, desks, ms, m, tmp, candidate, lookAhead);
        if tmp.records == [] {
          over := true;
          return;
        }
      } else if neighbours != [] {
        tmp, m1 := NextStage(heap, from, average, start, desks, ms, m, tmp, candidate, lookAhead);
      } else {
        if candidate.records == [] {
          EndedByGivingUp(average, heap, from, start, desks, ms, m, tmp, candidate, lookAhead);
          over := true;
          return;
        }
        desks1, ms1 := LastStage(heap, from, average, start, desks, ms, m, tmp, candidate, lookAhead);
        candidate, tmp, lookAhead, made := Plan([], -1), Plan([], -1), start, 1;
        return;
      }
      tmp, candidate, lookAhead, desks1, ms1 :=
        JudgeStage(heap, from, average, start, desks, ms, m1, tmp, candidate, lookAhead);
      made := if tmp.records == [] then 1 else 0;
    }

    /** The planning loop for one overloaded coordinator with the keys of its heap: it makes plans one
        after the other, until the load is down, the heap is used up, or a plan is given up. */
    method FindClumpMain(heap: seq<Key>, from: int, average: int, lookAheadStart: nat)
      returns (newPlans: nat, ghost desks: seq<Desk>, ghost ms: seq<Making>)
      requires Stored() && Housed(recordDegree, nodeLoad, home) && PlansOk([]) && QueueOk() && lookAheadStart > 0
      requires moveTupleId <= recordDegree.Keys && HeapOk(heap, from) && exists c :: c in nodeLoad && c != from
      modifies `moveTupleId, `neighbours, `movePlans, `nodeLoad
      ensures IsOver(average, heap, from, lookAheadStart, desks, ms) && newPlans == |ms| && |desks| > 0
      ensures desks[0] == old(Desk(moveTupleId, neighbours, nodeLoad, movePlans))
    {
      hide Stored, PlansOk, QueueOk, Housed, Working, HeapOk, IsOver;
      newPlans := 0;
      var candidate, tmp, pos: nat, lookAhead, over := Plan([], -1), Plan([], -1), 0, lookAheadStart, false;
      ghost var m := Making(Record(0, from), [], [], [], []);
      desks, ms := [Desk(moveTupleId, neighbours, nodeLoad, movePlans)], [];
      StartsWorking(average, heap, from, lookAheadStart, m);
      while Get(nodeLoad, from) > average
        invariant !over && Working(average, heap, from, lookAheadStart, desks, ms, m, tmp, candidate, lookAhead)
        invariant pos <= |heap| && (forall i :: 0 <= i < pos ==> heap[i] in moveTupleId)
        invariant nodeLoad.Keys >= old(nodeLoad).Keys && newPlans == |ms|
        invariant |desks| > 0 && desks[0] == old(Desk(moveTupleId, neighbours, nodeLoad, movePlans))
        decreases |recordDegree.Keys - moveTupleId|, |neighbours|, |tmp.records|
      {
        var made;
        over, tmp, candidate, lookAhead, pos, made, desks, ms, m :=
          PlanningRound(heap, pos, from, average, lookAheadStart, tmp, candidate, lookAhead, desks, ms, m);
        newPlans := newPlans + made;
        if over {
          break;
        }
      }
      if !over {
        EndedByLoad(average, heap, from, lookAheadStart, desks, ms, m, tmp, candidate, lookAhead);
      }
    }
  }
}
