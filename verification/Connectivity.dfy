/** Paths and connected components of a finite undirected graph given by its edge relation. */
module Connectivity {
  ghost predicate IsPath<K>(edge: (K, K) -> bool, p: seq<K>) {
    |p| > 0 && forall i :: 0 <= i < |p| - 1 ==> edge(p[i], p[i + 1])
  }

  ghost predicate PathFrom<K>(edge: (K, K) -> bool, p: seq<K>, a: K, b: K) {
    IsPath(edge, p) && p[0] == a && p[|p| - 1] == b
  }

  ghost predicate Connected<K(!new)>(edge: (K, K) -> bool, a: K, b: K) {
    exists p :: PathFrom(edge, p, a, b)
  }

  ghost predicate Symmetric<K(!new)>(edge: (K, K) -> bool) {
    forall a, b :: edge(a, b) ==> edge(b, a)
  }

  /** No edge leaves the set. */
  ghost predicate Closed<K(!new)>(edge: (K, K) -> bool, s: set<K>) {
    forall a, b :: a in s && edge(a, b) ==> b in s
  }

  lemma {:induction false} ConnectedSelf<K(!new)>(edge: (K, K) -> bool, a: K)
    ensures Connected(edge, a, a)
  {
    assert PathFrom(edge, [a], a, a);
  }

  lemma {:induction false} ConnectedStep<K(!new)>(edge: (K, K) -> bool, a: K, b: K, c: K)
    requires Connected(edge, a, b) && edge(b, c)
    ensures Connected(edge, a, c)
  {
    var p :| PathFrom(edge, p, a, b);
    assert PathFrom(edge, p + [c], a, c);
  }

  lemma {:induction false} ConnectedBack<K(!new)>(edge: (K, K) -> bool, a: K, b: K)
    requires Connected(edge, a, b) && Symmetric(edge)
    ensures Connected(edge, b, a)
  {
    var p :| PathFrom(edge, p, a, b);
    var q := seq(|p|, i requires 0 <= i < |p| => p[|p| - 1 - i]);
    forall i | 0 <= i < |q| - 1 ensures edge(q[i], q[i + 1]) {
      var j := |p| - 2 - i;
      assert edge(p[j], p[j + 1]);
    }
    assert PathFrom(edge, q, b, a);
  }

  lemma {:induction false} ConnectedJoin<K(!new)>(edge: (K, K) -> bool, a: K, b: K, c: K)
    requires Connected(edge, a, b) && Connected(edge, b, c)
    ensures Connected(edge, a, c)
  {
    var p :| PathFrom(edge, p, a, b);
    var q :| PathFrom(edge, q, b, c);
    var r := p + q[1..];
    forall i | 0 <= i < |r| - 1 ensures edge(r[i], r[i + 1]) {
      if i < |p| - 1 {
        assert edge(p[i], p[i + 1]);
      } else {
        var j := i - (|p| - 1);
        assert r[i] == q[j] && r[i + 1] == q[j + 1] && edge(q[j], q[j + 1]);
      }
    }
    assert PathFrom(edge, r, a, c);
  }

  /** A path that starts in a closed set stays in it. */
  lemma {:induction false} PathStays<K(!new)>(edge: (K, K) -> bool, s: set<K>, p: seq<K>, i: nat)
    requires Closed(edge, s) && IsPath(edge, p) && p[0] in s && i < |p|
    ensures p[i] in s
  {
    if i > 0 {
      PathStays(edge, s, p, i - 1);
      assert edge(p[i - 1], p[i - 1 + 1]);
    }
  }

  lemma {:induction false} ConnectedStays<K(!new)>(edge: (K, K) -> bool, s: set<K>, a: K, b: K)
    requires Closed(edge, s) && a in s && Connected(edge, a, b)
    ensures b in s
  {
    var p :| PathFrom(edge, p, a, b);
    PathStays(edge, s, p, |p| - 1);
  }

  /** A closed set whose members are all connected to one of them is a connected component. */
  lemma {:induction false} ComponentOf<K(!new)>(edge: (K, K) -> bool, s: set<K>, root: K, a: K, b: K)
    requires Symmetric(edge) && Closed(edge, s) && forall x :: x in s ==> Connected(edge, root, x)
    requires a in s
    ensures b in s <==> Connected(edge, a, b)
  {
    if b in s {
      ConnectedBack(edge, root, a);
      ConnectedJoin(edge, a, root, b);
    }
    if Connected(edge, a, b) {
      ConnectedStays(edge, s, a, b);
    }
  }

  lemma {:induction false} ConnectedSame<K(!new)>(edge: (K, K) -> bool, link: (K, K) -> bool, a: K, b: K)
    requires (forall x, y :: edge(x, y) ==> link(x, y)) && Connected(edge, a, b)
    ensures Connected(link, a, b)
  {
    var p :| PathFrom(edge, p, a, b);
    assert PathFrom(link, p, a, b);
  }
}
