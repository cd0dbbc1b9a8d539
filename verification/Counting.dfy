/** Counting anonymous tokens by the set of nodes they came from, and threads by how far they are. */
module Counting {
  /** The ids of `n` nodes. */
  ghost function Nodes(n: nat): (all: set<nat>)
    ensures |all| == n && forall c :: c in all <==> 0 <= c < n
  {
    if n == 0 then {} else Nodes(n - 1) + {n - 1}
  }

  /** A set of node ids that leaves out one node has at most `n - 1` members, and it has `n - 1`
      exactly when it holds every other node. */
  lemma {:induction false} AllOthers(s: set<nat>, n: nat, d: nat)
    requires d < n && d !in s && s <= Nodes(n)
    ensures |s| <= n - 1
    ensures |s| == n - 1 <==> forall c :: 0 <= c < n && c != d ==> c in s
  {
    var others := Nodes(n) - {d};
    Subset(s, others);
    assert |others| == n - 1;
    if forall c :: 0 <= c < n && c != d ==> c in s {
      assert others <= s;
      assert s == others;
    }
  }

  lemma {:induction false} Subset<T>(s: set<T>, t: set<T>)
    requires s <= t
    ensures |s| <= |t| && (|s| == |t| ==> s == t)
  {
    assert t == s + (t - s);
  }

  /** The number of threads that are past some point. */
  function Count<W>(ws: seq<W>, past: W -> bool): (c: nat)
    ensures c <= |ws|
  {
    if ws == [] then 0 else (if past(ws[0]) then 1 else 0) + Count(ws[1..], past)
  }

  lemma {:induction false} CountAll<W>(ws: seq<W>, past: W -> bool)
    ensures Count(ws, past) == |ws| <==> forall w :: 0 <= w < |ws| ==> past(ws[w])
  {
    if ws != [] {
      CountAll(ws[1..], past);
      assert forall w :: 0 <= w < |ws[1..]| ==> ws[1..][w] == ws[w + 1];
      assert (forall w :: 0 <= w < |ws| ==> past(ws[w])) ==> forall w :: 0 <= w < |ws[1..]| ==> past(ws[1..][w]);
    }
  }

  lemma {:induction false} CountUpdate<W>(ws: seq<W>, w: nat, x: W, past: W -> bool)
    requires w < |ws|
    ensures Count(ws[w := x], past) + (if past(ws[w]) then 1 else 0) == Count(ws, past) + (if past(x) then 1 else 0)
  {
    if w == 0 {
      assert ws[w := x][1..] == ws[1..];
    } else {
      CountUpdate(ws[1..], w - 1, x, past);
      assert ws[w := x][1..] == ws[1..][w - 1 := x];
    }
  }

  lemma {:induction false} CountNone<W>(ws: seq<W>, past: W -> bool)
    requires forall w :: 0 <= w < |ws| ==> !past(ws[w])
    ensures Count(ws, past) == 0
  {
    if ws != [] {
      assert forall w :: 0 <= w < |ws[1..]| ==> ws[1..][w] == ws[w + 1];
      CountNone(ws[1..], past);
    }
  }
}
