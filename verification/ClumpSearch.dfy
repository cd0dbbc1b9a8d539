/** The breadth-first search for clumps, as facts about its queue and its visited keys. */
module ClumpSearch {
  import opened Connectivity
  import opened Sequences

  /** While one root is explored: `before` holds the keys of earlier roots, `records` the ones of
      this root in the order visited, `q` the queue. */
  ghost predicate Searching<K(!new)>(edge: (K, K) -> bool, root: K, before: set<K>, records: seq<K>, q: seq<K>) {
    && Symmetric(edge) && Closed(edge, before) && Distinct(records)
    && (forall a :: a in records ==> a !in before && Connected(edge, root, a))
    && (forall a :: a in q ==> Connected(edge, root, a))
    && (root in before || root in records || root in q)
    && forall a, b :: a in records && edge(a, b) ==> b in before || b in records || b in q
  }

  lemma {:induction false} SearchStart<K(!new)>(edge: (K, K) -> bool, root: K, before: set<K>)
    requires Symmetric(edge) && Closed(edge, before)
    ensures Searching(edge, root, before, [], [root])
  {
    ConnectedSelf(edge, root);
  }

  lemma {:induction false} SearchSkip<K(!new)>(edge: (K, K) -> bool, root: K, before: set<K>, records: seq<K>,
          q: seq<K>)
    requires Searching(edge, root, before, records, q) && q != [] && (q[0] in before || q[0] in records)
    ensures Searching(edge, root, before, records, q[1..])
  {
    assert forall a :: a in q ==> a == q[0] || a in q[1..];
  }

  /** `q` with the unvisited neighbours of `key` appended. */
  ghost predicate Pushed<K(!new)>(edge: (K, K) -> bool, key: K, used: set<K>, q: seq<K>, q1: seq<K>) {
    && (forall a :: a in q ==> a in q1)
    && (forall a :: a in q1 ==> a in q || edge(key, a))
    && forall b :: edge(key, b) && b !in used ==> b in q1
  }

  lemma {:induction false} SearchVisit<K(!new)>(edge: (K, K) -> bool, root: K, before: set<K>, records: seq<K>,
          q: seq<K>, q1: seq<K>)
    requires Searching(edge, root, before, records, q) && q != [] && q[0] !in before && q[0] !in records
    requires Pushed(edge, q[0], before + Elements(records + [q[0]]), q[1..], q1)
    ensures Searching(edge, root, before, records + [q[0]], q1)
  {
    var key, records1 := q[0], records + [q[0]];
    assert forall a :: a in q ==> a == key || a in q[1..];
    forall a | a in q1 ensures Connected(edge, root, a) {
      if a !in q {
        ConnectedStep(edge, root, key, a);
      }
    }
    forall a, b | a in records1 && edge(a, b) ensures b in before || b in records1 || b in q1 {
      if a in records && b in q && b != key {
        assert b in q[1..];
      }
    }
  }

  /** When the queue is empty the visited keys are the component of the root, unless the root was
      visited before. */
  lemma {:induction false} SearchDone<K(!new)>(edge: (K, K) -> bool, root: K, before: set<K>, records: seq<K>)
    requires Searching(edge, root, before, records, [])
    ensures Closed(edge, before + Elements(records)) && root in before + Elements(records)
    ensures Closed(edge, Elements(records))
    ensures root in before <==> records == []
    ensures forall a :: a in records ==> IsComponent(edge, records, a)
  {
    forall a, b | a in Elements(records) && edge(a, b) ensures b in records {
      assert edge(b, a);
    }
    if root in before && records != [] {
      ConnectedStays(edge, before, root, records[0]);
    }
    forall a | a in records ensures IsComponent(edge, records, a) {
      forall b ensures b in records <==> Connected(edge, a, b) {
        ComponentOf(edge, Elements(records), root, a, b);
      }
    }
  }

  /** `c` is exactly the set of keys connected to `a`. */
  ghost predicate IsComponent<K(!new)>(edge: (K, K) -> bool, c: seq<K>, a: K) {
    forall b :: b in c <==> Connected(edge, a, b)
  }

  ghost predicate IsClump<K(!new)>(edge: (K, K) -> bool, c: seq<K>) {
    |c| > 1 && Distinct(c) && forall a :: a in c ==> IsComponent(edge, c, a)
  }

  ghost predicate InClump<K>(clumps: seq<seq<K>>, a: K) {
    exists i :: 0 <= i < |clumps| && a in clumps[i]
  }

  ghost predicate Apart<K>(c: seq<K>, d: seq<K>) {
    forall a :: a in c ==> a !in d
  }

  /** After some roots: what is visited is closed, and its components with more than one key are
      the clumps found so far. */
  ghost predicate Found<K(!new)>(edge: (K, K) -> bool, clumps: seq<seq<K>>, used: set<K>) {
    && Symmetric(edge) && Closed(edge, used)
    && (forall i :: 0 <= i < |clumps| ==> IsClump(edge, clumps[i]) && forall a :: a in clumps[i] ==> a in used)
    && (forall i, j :: 0 <= i < j < |clumps| ==> Apart(clumps[i], clumps[j]))
    && forall a, b :: a in used && a != b && edge(a, b) ==> InClump(clumps, a)
  }

  lemma {:induction false} FoundNone<K(!new)>(edge: (K, K) -> bool)
    requires Symmetric(edge)
    ensures Found(edge, [], {})
  {
  }

  lemma {:induction false} FoundMore<K(!new)>(edge: (K, K) -> bool, root: K, clumps: seq<seq<K>>, used: set<K>,
          records: seq<K>)
    requires Found(edge, clumps, used) && Searching(edge, root, used, records, [])
    ensures Found(edge, if |records| > 1 then clumps + [records] else clumps, used + Elements(records))
  {
    SearchDone(edge, root, used, records);
    var clumps1, used1 := if |records| > 1 then clumps + [records] else clumps, used + Elements(records);
    assert |records| > 1 ==> clumps1[|clumps|] == records;
    forall i | 0 <= i < |clumps1| ensures IsClump(edge, clumps1[i]) && forall a :: a in clumps1[i] ==> a in used1 {
      assert i < |clumps| ==> clumps1[i] == clumps[i];
    }
    forall i, j | 0 <= i < j < |clumps1| ensures Apart(clumps1[i], clumps1[j]) {
      assert clumps1[i] == clumps[i] && (j < |clumps| ==> clumps1[j] == clumps[j]);
      assert forall a :: a in clumps[i] ==> a in used;
    }
    forall a, b | a in used1 && a != b && edge(a, b) ensures InClump(clumps1, a) {
      if a in used {
        assert InClump(clumps, a);
        var i :| 0 <= i < |clumps| && a in clumps[i];
        assert a in clumps1[i];
      } else {
        assert b in Elements(records);
        Two(records, a, b);
        assert a in clumps1[|clumps|];
      }
    }
  }

  lemma {:induction false} Two<K>(s: seq<K>, a: K, b: K)
    requires a in s && b in s && a != b
    ensures |s| > 1
  {
  }

  /** The finished search: two different keys share a clump exactly when they are connected. */
  lemma {:induction false} ClumpsAreComponents<K(!new)>(edge: (K, K) -> bool, clumps: seq<seq<K>>, used: set<K>, a: K,
          b: K)
    requires Found(edge, clumps, used) && a != b && forall x, y :: edge(x, y) ==> x in used
    ensures (exists i :: 0 <= i < |clumps| && a in clumps[i] && b in clumps[i]) <==> Connected(edge, a, b)
  {
    if i :| 0 <= i < |clumps| && a in clumps[i] && b in clumps[i] {
      assert IsClump(edge, clumps[i]);
      assert IsComponent(edge, clumps[i], a);
    }
    if Connected(edge, a, b) {
      var p :| PathFrom(edge, p, a, b);
      FirstMove(edge, p);
      var k: nat :| k + 1 < |p| && p[k] == a && p[k + 1] != a && edge(p[k], p[k + 1]);
      assert InClump(clumps, a);
      var i :| 0 <= i < |clumps| && a in clumps[i];
      assert IsClump(edge, clumps[i]);
      assert IsComponent(edge, clumps[i], a);
    }
  }

  /** A path between different keys leaves its start at some point. */
  lemma {:induction false} FirstMove<K>(edge: (K, K) -> bool, p: seq<K>)
    requires IsPath(edge, p) && p[|p| - 1] != p[0]
    ensures exists k: nat :: k + 1 < |p| && p[k] == p[0] && p[k + 1] != p[0] && edge(p[k], p[k + 1])
  {
    var k: nat := 0;
    while p[k + 1] == p[0]
      invariant k + 1 < |p| && p[k] == p[0]
      decreases |p| - k
    {
      k := k + 1;
    }
    assert edge(p[k], p[k + 1]);
  }
}
