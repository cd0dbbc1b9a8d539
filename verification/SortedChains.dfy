/** The pure side of the plain skip list. On every level the nodes that reach it form a chain
    between the two sentinels, linked by that level's `next` pointers and sorted by value; level 0
    is the list itself and carries the `prev` pointers too. Linking a node on its levels,
    unlinking it, and unlinking a closed range of values each change one link per level, and the
    lemmas here say that the chains stay what they have to be. While a duplicate is linked the
    chains are sorted weakly only. */
module SortedChains {
  import opened Ordering
  import opened Sequences

  class ListNode<T> {
    const value: T
    const level: nat
    var prev: ListNode?<T>
    var next: seq<ListNode?<T>>

    constructor (value: T, level: nat)
      ensures this.value == value && this.level == level && prev == null
      ensures |next| == level + 1 && forall l :: 0 <= l <= level ==> next[l] == null
    {
      this.value, this.level, prev := value, level, null;
      next := seq(level + 1, _ => null);
    }
  }

  /** The nodes of one level in order, both sentinels included. */
  type Chain<T> = seq<ListNode<T>>

  /** What the `next` pointers hold. */
  type Links<T> = map<(ListNode<T>, nat), ListNode?<T>>

  /** What the `prev` pointers hold. */
  type Backs<T> = map<ListNode<T>, ListNode?<T>>

  ghost predicate Ends<T>(chain: Chain<T>, head: ListNode<T>, tail: ListNode<T>) {
    && |chain| >= 2 && chain[0] == head && chain[|chain| - 1] == tail
    && forall i, j :: 0 <= i < j < |chain| ==> chain[i] != chain[j]
  }

  ghost predicate Chained<T>(next: Links<T>, chain: Chain<T>, l: nat) {
    forall i :: 0 <= i < |chain| - 1 ==> (chain[i], l) in next && next[(chain[i], l)] == chain[i + 1]
  }

  ghost predicate Net<T>(chains: seq<Chain<T>>, next: Links<T>, head: ListNode<T>, tail: ListNode<T>) {
    forall l :: 0 <= l < |chains| ==> Ends(chains[l], head, tail) && Chained(next, chains[l], l)
  }

  /** Level `l` has the nodes that reach it. */
  ghost predicate Members<T>(chains: seq<Chain<T>>) {
    && (forall l, i :: 0 <= l < |chains| && 0 <= i < |chains[l]| ==>
        chains[l][i] in chains[0] && chains[l][i].level >= l)
    && (forall l, i :: 0 <= l < |chains| && 0 <= i < |chains[0]| && chains[0][i].level >= l ==>
        chains[0][i] in chains[l])
  }

  ghost predicate BackChained<T>(back: Backs<T>, chain: Chain<T>) {
    forall i :: 0 < i < |chain| ==> chain[i] in back && back[chain[i]] == chain[i - 1]
  }

  function Values<T>(chain: Chain<T>): (s: seq<T>)
    requires |chain| >= 2
    ensures |s| == |chain| - 2 && forall i :: 0 <= i < |s| ==> s[i] == chain[i + 1].value
  {
    seq(|chain| - 2, i requires 0 <= i < |chain| - 2 => chain[i + 1].value)
  }

  // ---------- one level ----------

  lemma {:induction false} SpliceChained<T>(next: Links<T>, chain: Chain<T>, l: nat, r: nat, n: ListNode<T>,
          head: ListNode<T>, tail: ListNode<T>)
    requires Ends(chain, head, tail) && Chained(next, chain, l) && n !in chain && r < |chain| - 1
    ensures var linked := next[(n, l) := chain[r + 1]][(chain[r], l) := n];
            Ends(Splice(chain, r, n), head, tail) && Chained(linked, Splice(chain, r, n), l)
  {
    var t := Splice(chain, r, n);
    var linked := next[(n, l) := chain[r + 1]][(chain[r], l) := n];
    assert t[0] == chain[Before(r, 0)] && t[|t| - 1] == chain[Before(r, |t| - 1)];
    forall i | 0 <= i < |t| - 1 ensures (t[i], l) in linked && linked[(t[i], l)] == t[i + 1] {
      assert i != r + 1 ==> t[i] == chain[Before(r, i)];
      assert i != r ==> t[i + 1] == chain[Before(r, i + 1)];
    }
    forall i, j | 0 <= i < j < |t| ensures t[i] != t[j] {
      assert i != r + 1 ==> t[i] == chain[Before(r, i)];
      assert j != r + 1 ==> t[j] == chain[Before(r, j)];
    }
  }

  lemma {:induction false} CutChained<T>(next: Links<T>, chain: Chain<T>, l: nat, a: nat, b: nat, head: ListNode<T>,
          tail: ListNode<T>)
    requires Ends(chain, head, tail) && Chained(next, chain, l) && 1 <= a <= b < |chain| - 1
    ensures Ends(Cut(chain, a, b), head, tail) && Chained(next[(chain[a - 1], l) := chain[b + 1]], Cut(chain, a, b), l)
  {
    var t := Cut(chain, a, b);
    var linked := next[(chain[a - 1], l) := chain[b + 1]];
    forall i | 0 <= i < |t| - 1 ensures (t[i], l) in linked && linked[(t[i], l)] == t[i + 1] {
      var i0 := if i < a then i else i + (b + 1 - a);
      assert t[i] == chain[i0];
      if i == a - 1 {
        assert t[i + 1] == chain[b + 1];
      } else {
        assert t[i + 1] == chain[i0 + 1];
      }
    }
  }

  lemma {:induction false} OtherLevel<T>(next: Links<T>, chain: Chain<T>, l: nat, p: ListNode<T>, m: nat,
          x: ListNode?<T>)
    requires Chained(next, chain, l) && l != m
    ensures Chained(next[(p, m) := x], chain, l)
  {
  }

  lemma {:induction false} NetSpliced<T>(chains: seq<Chain<T>>, next: Links<T>, l: nat, r: nat, n: ListNode<T>,
          head: ListNode<T>, tail: ListNode<T>)
    requires Net(chains, next, head, tail) && l < |chains| && n !in chains[l] && r < |chains[l]| - 1
    ensures Net(chains[l := Splice(chains[l], r, n)], next[(n, l) := chains[l][r + 1]][(chains[l][r], l) := n], head,
        tail)
  {
    hide Ends, Chained, Splice;
    var first := next[(n, l) := chains[l][r + 1]];
    forall m | 0 <= m < |chains| && m != l
      ensures Ends(chains[m], head, tail) && Chained(first[(chains[l][r], l) := n], chains[m], m)
    {
      OtherLevel(next, chains[m], m, n, l, chains[l][r + 1]);
      OtherLevel(first, chains[m], m, chains[l][r], l, n);
    }
    SpliceChained(next, chains[l], l, r, n, head, tail);
  }

  lemma {:induction false} NetCut<T>(chains: seq<Chain<T>>, next: Links<T>, l: nat, a: nat, b: nat, head: ListNode<T>,
          tail: ListNode<T>)
    requires Net(chains, next, head, tail) && l < |chains| && 1 <= a <= b < |chains[l]| - 1
    ensures Net(chains[l := Cut(chains[l], a, b)], next[(chains[l][a - 1], l) := chains[l][b + 1]], head, tail)
  {
    hide Ends, Chained, Cut;
    forall m | 0 <= m < |chains| && m != l
      ensures Ends(chains[m], head, tail) && Chained(next[(chains[l][a - 1], l) := chains[l][b + 1]], chains[m], m)
    {
      OtherLevel(next, chains[m], m, chains[l][a - 1], l, chains[l][b + 1]);
    }
    CutChained(next, chains[l], l, a, b, head, tail);
  }

  lemma {:induction false} SpliceValues<T>(chain: Chain<T>, r: nat, n: ListNode<T>)
    requires |chain| >= 2 && r < |chain| - 1
    ensures Values(Splice(chain, r, n)) == Values(chain)[..r] + [n.value] + Values(chain)[r..]
  {
    var t := Splice(chain, r, n);
    forall i | 0 <= i < |t| - 2 ensures t[i + 1].value == (Values(chain)[..r] + [n.value] + Values(chain)[r..])[i] {
      assert i != r ==> t[i + 1] == chain[Before(r, i + 1)];
    }
  }

  lemma {:induction false} CutValues<T>(chain: Chain<T>, a: nat, b: nat)
    requires |chain| >= 2 && 1 <= a <= b < |chain| - 1
    ensures Values(Cut(chain, a, b)) == Values(chain)[..a - 1] + Values(chain)[b..]
  {
  }

  /** Taking the spliced node out again gives the chain back. */
  lemma {:induction false} CutOfSplice<A>(s: seq<A>, r: nat, x: A)
    requires r < |s|
    ensures Cut(Splice(s, r, x), r + 1, r + 1) == s
  {
    var t := Splice(s, r, x);
    forall i | 0 <= i < |s| ensures Cut(t, r + 1, r + 1)[i] == s[i] {
      assert t[if i < r + 1 then i else i + 1] == s[i] by {
        if i < r + 1 {
          assert t[i] == s[Before(r, i)];
        } else {
          assert t[i + 1] == s[Before(r, i + 1)];
        }
      }
    }
  }

  // ---------- all levels ----------

  /** Half-way through a change of `was` into `done`, from the top level down to level `l`. */
  ghost function Mixed<A>(was: seq<A>, done: seq<A>, l: nat): (c: seq<A>)
    requires l <= |was| == |done|
    ensures |c| == |was|
  {
    was[..l] + done[l..]
  }

  lemma {:induction false} MixedStep<A>(was: seq<A>, done: seq<A>, l: nat)
    requires l < |was| == |done|
    ensures Mixed(was, done, l + 1)[l] == was[l] && Mixed(was, done, l + 1)[l := done[l]] == Mixed(was, done, l)
  {
  }

  lemma {:induction false} MixedEnds<A>(was: seq<A>, done: seq<A>, l: nat)
    requires l <= |was| == |done| && forall m :: l <= m < |was| ==> done[m] == was[m]
    ensures Mixed(was, done, l) == was && Mixed(was, done, 0) == done
  {
  }

  ghost predicate Wide<T>(chains: seq<Chain<T>>) {
    forall l :: 0 <= l < |chains| ==> |chains[l]| >= 2
  }

  /** The node is on every level it reaches, at the rank of its value. */
  ghost function Joined<T>(less: (T, T) -> bool, chain: Chain<T>, n: ListNode<T>): (c: Chain<T>)
    requires |chain| >= 2
    ensures |c| == |chain| + 1
  {
    Splice(chain, Rank(less, Values(chain), n.value), n)
  }

  ghost function Added<T>(less: (T, T) -> bool, chains: seq<Chain<T>>, n: ListNode<T>): (c: seq<Chain<T>>)
    requires Wide(chains)
    ensures |c| == |chains|
  {
    seq(|chains|, l requires 0 <= l < |chains| => if l <= n.level then Joined(less, chains[l], n) else chains[l])
  }

  ghost function Spot<A>(s: seq<A>, x: A): (p: nat)
    requires x in s
    ensures p < |s| && s[p] == x
  {
    var p :| 0 <= p < |s| && s[p] == x; p
  }

  ghost function Without<A>(s: seq<A>, x: A): seq<A> {
    if x in s then Cut(s, Spot(s, x), Spot(s, x)) else s
  }

  ghost function Dropped<T>(chains: seq<Chain<T>>, n: ListNode<T>): (c: seq<Chain<T>>)
    ensures |c| == |chains|
  {
    seq(|chains|, l requires 0 <= l < |chains| => Without(chains[l], n))
  }

  ghost function Outside<T>(less: (T, T) -> bool, chain: Chain<T>, low: T, high: T): (c: Chain<T>)
    requires |chain| >= 2
    ensures |c| >= 2
  {
    var r, u := Rank(less, Values(chain), low), Upper(less, Values(chain), high);
    if r < u then Cut(chain, r + 1, u) else chain
  }

  ghost function Kept<T>(less: (T, T) -> bool, chains: seq<Chain<T>>, low: T, high: T): (c: seq<Chain<T>>)
    requires Wide(chains)
    ensures |c| == |chains|
  {
    seq(|chains|, l requires 0 <= l < |chains| => Outside(less, chains[l], low, high))
  }

  lemma {:induction false} SpliceElements<A>(s: seq<A>, r: nat, n: A, x: A)
    requires r < |s|
    ensures x in Splice(s, r, n) <==> x in s || x == n
  {
    var t := Splice(s, r, n);
    if x in s {
      var i :| 0 <= i < |s| && s[i] == x;
      assert t[if i <= r then i else i + 1] == s[Before(r, if i <= r then i else i + 1)];
    }
    if x in t {
      var i :| 0 <= i < |t| && t[i] == x;
      assert i != r + 1 ==> t[i] == s[Before(r, i)];
    }
  }

  lemma {:induction false} CutElements<T>(s: Chain<T>, a: nat, b: nat, head: ListNode<T>, tail: ListNode<T>,
          x: ListNode<T>)
    requires Ends(s, head, tail) && 1 <= a <= b < |s| - 1
    ensures x in Cut(s, a, b) <==> x in s && forall i :: a <= i <= b ==> s[i] != x
  {
    var t := Cut(s, a, b);
    if x in s && forall i :: a <= i <= b ==> s[i] != x {
      var i :| 0 <= i < |s| && s[i] == x;
      assert t[if i < a then i else i - (b + 1 - a)] == x;
    }
    if x in t {
      var i :| 0 <= i < |t| && t[i] == x;
      assert t[i] == s[if i < a then i else i + (b + 1 - a)];
    }
  }

  lemma {:induction false} WithoutElements<T>(s: Chain<T>, n: ListNode<T>, head: ListNode<T>, tail: ListNode<T>,
          x: ListNode<T>)
    requires Ends(s, head, tail) && n != head && n != tail
    ensures x in Without(s, n) <==> x in s && x != n
  {
    if n in s {
      CutElements(s, Spot(s, n), Spot(s, n), head, tail, x);
    }
  }

  /** Membership, one node at a time. */
  ghost predicate MemberOf<T>(chains: seq<Chain<T>>, l: nat, x: ListNode<T>)
    requires l < |chains|
  {
    x in chains[l] <==> x in chains[0] && x.level >= l
  }

  lemma {:induction false} MembersAt<T>(chains: seq<Chain<T>>, l: nat, x: ListNode<T>)
    requires Members(chains) && l < |chains|
    ensures MemberOf(chains, l, x)
  {
  }

  lemma {:induction false} MembersFrom<T>(chains: seq<Chain<T>>)
    requires forall l, i :: 0 <= l < |chains| && 0 <= i < |chains[l]| ==> MemberOf(chains, l, chains[l][i])
    requires forall l, i :: 0 <= l < |chains| && 0 <= i < |chains[0]| ==> MemberOf(chains, l, chains[0][i])
    ensures Members(chains)
  {
    forall l, i | 0 <= l < |chains| && 0 <= i < |chains[0]| && chains[0][i].level >= l
      ensures chains[0][i] in chains[l]
    {
      assert MemberOf(chains, l, chains[0][i]);
    }
  }

  lemma {:induction false} AddedMember<T>(less: (T, T) -> bool, chains: seq<Chain<T>>, n: ListNode<T>, l: nat,
          x: ListNode<T>)
    requires Wide(chains) && Members(chains) && l < |chains| && n !in chains[0]
    ensures MemberOf(Added(less, chains, n), l, x)
  {
    hide Members, Splice, Rank;
    MembersAt(chains, l, x);
    MembersAt(chains, l, n);
    SpliceElements(chains[0], Rank(less, Values(chains[0]), n.value), n, x);
    SpliceElements(chains[l], Rank(less, Values(chains[l]), n.value), n, x);
  }

  lemma {:induction false} AddedMembers<T>(less: (T, T) -> bool, chains: seq<Chain<T>>, n: ListNode<T>)
    requires Wide(chains) && Members(chains) && |chains| > 0 && n !in chains[0]
    ensures Members(Added(less, chains, n))
  {
    hide Added, MemberOf, Members;
    var c := Added(less, chains, n);
    forall l, i | 0 <= l < |c| && 0 <= i < |c[l]| ensures MemberOf(c, l, c[l][i]) {
      AddedMember(less, chains, n, l, c[l][i]);
    }
    forall l, i | 0 <= l < |c| && 0 <= i < |c[0]| ensures MemberOf(c, l, c[0][i]) {
      AddedMember(less, chains, n, l, c[0][i]);
    }
    MembersFrom(c);
  }

  lemma {:induction false} DroppedMember<T>(chains: seq<Chain<T>>, next: Links<T>, n: ListNode<T>, head: ListNode<T>,
          tail: ListNode<T>, l: nat, x: ListNode<T>)
    requires Net(chains, next, head, tail) && Members(chains) && l < |chains| && n != head && n != tail
    ensures MemberOf(Dropped(chains, n), l, x)
  {
    hide Members, Without, Chained, Ends;
    MembersAt(chains, l, x);
    WithoutElements(chains[0], n, head, tail, x);
    WithoutElements(chains[l], n, head, tail, x);
  }

  lemma {:induction false} DroppedMembers<T>(chains: seq<Chain<T>>, next: Links<T>, n: ListNode<T>, head: ListNode<T>,
          tail: ListNode<T>)
    requires Net(chains, next, head, tail) && Members(chains) && n != head && n != tail
    ensures Members(Dropped(chains, n))
  {
    hide Dropped, MemberOf, Members, Net;
    var c := Dropped(chains, n);
    forall l, i | 0 <= l < |c| && 0 <= i < |c[l]| ensures MemberOf(c, l, c[l][i]) {
      DroppedMember(chains, next, n, head, tail, l, c[l][i]);
    }
    forall l, i | 0 <= l < |c| && 0 <= i < |c[0]| ensures MemberOf(c, l, c[0][i]) {
      DroppedMember(chains, next, n, head, tail, l, c[0][i]);
    }
    MembersFrom(c);
  }

  /** Which nodes of a level stay is a matter of their values alone. */
  lemma {:induction false} OutsideElements<T(!new)>(less: (T, T) -> bool, chain: Chain<T>, low: T, high: T,
          head: ListNode<T>, tail: ListNode<T>, x: ListNode<T>)
    requires Ends(chain, head, tail) && StrictWeakOrder(less) && Sorted(less, Values(chain)) && !less(high, low)
    ensures x in Outside(less, chain, low, high)
        <==> x in chain && (x == head || x == tail || less(x.value, low) || less(high, x.value))
  {
    hide Sorted, StrictWeakOrder, Cut;
    var s := Values(chain);
    var r, u := Rank(less, s, low), Upper(less, s, high);
    ErasedBetweenIsRange(less, s, low, high);
    if r < u {
      CutElements(chain, r + 1, u, head, tail, x);
    }
    if x in chain {
      var i :| 0 <= i < |chain| && chain[i] == x;
      if 1 <= i < |chain| - 1 {
        assert s[i - 1] == x.value;
      }
    }
  }

  lemma {:induction false} KeptMember<T(!new)>(less: (T, T) -> bool, chains: seq<Chain<T>>, low: T, high: T,
          next: Links<T>, head: ListNode<T>, tail: ListNode<T>, l: nat, x: ListNode<T>)
    requires Net(chains, next, head, tail) && Members(chains) && Wide(chains) && l < |chains| && StrictWeakOrder(less)
    requires !less(high, low)
    requires Sorted(less, Values(chains[0])) && Sorted(less, Values(chains[l]))
    ensures MemberOf(Kept(less, chains, low, high), l, x)
  {
    hide Members, Outside, Chained, Ends, Sorted, StrictWeakOrder;
    MembersAt(chains, l, x);
    OutsideElements(less, chains[0], low, high, head, tail, x);
    OutsideElements(less, chains[l], low, high, head, tail, x);
  }

  lemma {:induction false} KeptMembers<T(!new)>(less: (T, T) -> bool, chains: seq<Chain<T>>, low: T, high: T,
          next: Links<T>, head: ListNode<T>, tail: ListNode<T>)
    requires Net(chains, next, head, tail) && Members(chains) && Wide(chains) && StrictWeakOrder(less)
    requires !less(high, low)
    requires forall l :: 0 <= l < |chains| ==> Sorted(less, Values(chains[l]))
    ensures Members(Kept(less, chains, low, high))
  {
    hide Kept, MemberOf, Members, Net, Sorted, StrictWeakOrder;
    var c := Kept(less, chains, low, high);
    forall l, i | 0 <= l < |c| && 0 <= i < |c[l]| ensures MemberOf(c, l, c[l][i]) {
      KeptMember(less, chains, low, high, next, head, tail, l, c[l][i]);
    }
    forall l, i | 0 <= l < |c| && 0 <= i < |c[0]| ensures MemberOf(c, l, c[0][i]) {
      KeptMember(less, chains, low, high, next, head, tail, l, c[0][i]);
    }
    MembersFrom(c);
  }

  // ---------- what the list keeps ----------

  ghost predicate InOrder<T(!new)>(less: (T, T) -> bool, chain: Chain<T>, strict: bool) {
    |chain| >= 2 && Weak(less, Values(chain)) && (strict ==> Sorted(less, Values(chain)))
  }

  ghost predicate LevelsBelow<T>(chain: Chain<T>, levels: nat) {
    forall i :: 0 < i < |chain| - 1 ==> chain[i].level < levels
  }

  /** Everything the list keeps between calls; `strict` is false only while a duplicate is linked. */
  ghost predicate Inv<T(!new)>(less: (T, T) -> bool, numLevels: nat, levels: nat, chains: seq<Chain<T>>, next: Links<T>,
          back: Backs<T>, head: ListNode<T>, tail: ListNode<T>, strict: bool) {
    && StrictWeakOrder(less)
    && 1 <= numLevels == |chains| && levels <= numLevels
    && head.level == tail.level == numLevels
    && Net(chains, next, head, tail)
    && Members(chains)
    && BackChained(back, chains[0])
    && (forall l :: 0 <= l < |chains| ==> InOrder(less, chains[l], strict))
    && LevelsBelow(chains[0], levels)
  }

  lemma {:induction false} InvIsWide<T(!new)>(less: (T, T) -> bool, numLevels: nat, levels: nat, chains: seq<Chain<T>>,
          next: Links<T>, back: Backs<T>, head: ListNode<T>, tail: ListNode<T>, strict: bool)
    requires Inv(less, numLevels, levels, chains, next, back, head, tail, strict)
    ensures Wide(chains) && |chains| > 0 && Ends(chains[0], head, tail)
  {
    hide StrictWeakOrder, Members, BackChained, LevelsBelow, Weak, Sorted, Chained;
  }

  ghost function Empty<T>(numLevels: nat, head: ListNode<T>, tail: ListNode<T>): (chains: seq<Chain<T>>)
    ensures |chains| == numLevels && forall l :: 0 <= l < numLevels ==> chains[l] == [head, tail]
  {
    seq(numLevels, _ => [head, tail])
  }

  lemma {:induction false} EmptyInv<T(!new)>(less: (T, T) -> bool, numLevels: nat, levels: nat, next: Links<T>,
          back: Backs<T>, head: ListNode<T>, tail: ListNode<T>)
    requires StrictWeakOrder(less) && 1 <= numLevels && levels <= numLevels && head != tail
    requires head.level == tail.level == numLevels
    requires forall l :: 0 <= l < numLevels ==> (head, l) in next && next[(head, l)] == tail
    requires tail in back && back[tail] == head
    ensures Inv(less, numLevels, levels, Empty(numLevels, head, tail), next, back, head, tail, true)
    ensures Values(Empty(numLevels, head, tail)[0]) == []
  {
    hide StrictWeakOrder;
  }

  /** The pointers of a new node. */
  ghost function NodeNulls<T>(n: ListNode<T>): (links: Links<T>)
    ensures forall l :: 0 <= l <= n.level ==> (n, l) in links && links[(n, l)] == null
    ensures forall k :: k in links ==> k.0 == n
  {
    var keys := set l: nat | l <= n.level :: (n, l);
    map k | k in keys :: null
  }

  /** A new node that is not linked yet changes nothing. */
  lemma {:induction false} InvExtended<T(!new)>(less: (T, T) -> bool, numLevels: nat, levels: nat,
          chains: seq<Chain<T>>, next: Links<T>, back: Backs<T>, head: ListNode<T>, tail: ListNode<T>, n: ListNode<T>)
    requires Inv(less, numLevels, levels, chains, next, back, head, tail, true) && n !in chains[0]
    ensures Inv(less, numLevels, levels, chains, next + NodeNulls(n), back[n := null], head, tail, true)
  {
    hide StrictWeakOrder, LevelsBelow, InOrder, NodeNulls, Members;
    forall l | 0 <= l < |chains| ensures Chained(next + NodeNulls(n), chains[l], l) {
      MembersAt(chains, l, n);
      assert Chained(next, chains[l], l);
    }
  }

  lemma {:induction false} JoinedInOrder<T(!new)>(less: (T, T) -> bool, chain: Chain<T>, n: ListNode<T>)
    requires StrictWeakOrder(less) && InOrder(less, chain, true)
    ensures InOrder(less, Joined(less, chain, n), !Holds(less, Values(chain), n.value))
    ensures IsRank(less, Values(Joined(less, chain, n)), n.value, Rank(less, Values(chain), n.value))
  {
    hide StrictWeakOrder, Splice, Holds;
    var r := Rank(less, Values(chain), n.value);
    RankOfSorted(less, Values(chain), n.value);
    SpliceValues(chain, r, n);
    WeakInsert(less, Values(chain), n.value, r);
    if !Holds(less, Values(chain), n.value) {
      SortedInsert(less, Values(chain), n.value, r);
    }
  }

  /** A key on some level is in the list. */
  lemma {:induction false} HoldsBelow<T(!new)>(less: (T, T) -> bool, chains: seq<Chain<T>>, l: nat, head: ListNode<T>,
          tail: ListNode<T>, v: T)
    requires Members(chains) && Wide(chains) && l < |chains| && Ends(chains[l], head, tail)
    requires Ends(chains[0], head, tail)
    requires Holds(less, Values(chains[l]), v)
    ensures Holds(less, Values(chains[0]), v)
  {
    var i :| 0 <= i < |Values(chains[l])| && Equivalent(less, Values(chains[l])[i], v);
    var x := chains[l][i + 1];
    var j :| 0 <= j < |chains[0]| && chains[0][j] == x;
    assert Values(chains[0])[j - 1] == x.value;
  }

  lemma {:induction false} AddedOrder<T(!new)>(less: (T, T) -> bool, numLevels: nat, levels: nat, chains: seq<Chain<T>>,
          next: Links<T>, back: Backs<T>, head: ListNode<T>, tail: ListNode<T>, n: ListNode<T>, l: nat)
    requires Inv(less, numLevels, levels, chains, next, back, head, tail, true) && Wide(chains) && l < |chains|
    ensures InOrder(less, Added(less, chains, n)[l], !Holds(less, Values(chains[0]), n.value))
    ensures l <= n.level ==>
        IsRank(less, Values(Joined(less, chains[l], n)), n.value, Rank(less, Values(chains[l]), n.value))
  {
    hide StrictWeakOrder, Members, BackChained, LevelsBelow, Chained, Weak, Sorted, IsRank, Joined, Holds;
    JoinedInOrder(less, chains[l], n);
    if Holds(less, Values(chains[l]), n.value) {
      HoldsBelow(less, chains, l, head, tail, n.value);
    }
  }

  lemma {:induction false} JoinedBack<T>(chain: Chain<T>, back: Backs<T>, n: ListNode<T>, r: nat, head: ListNode<T>,
          tail: ListNode<T>, levels: nat)
    requires Ends(chain, head, tail) && BackChained(back, chain) && LevelsBelow(chain, levels)
    requires n !in chain && r < |chain| - 1 && n.level < levels
    ensures BackChained(back[n := chain[r]][chain[r + 1] := n], Splice(chain, r, n))
    ensures LevelsBelow(Splice(chain, r, n), levels)
  {
    var t := Splice(chain, r, n);
    forall i | 0 <= i < |t| ensures i != r + 1 ==> t[i] == chain[Before(r, i)] {
    }
    assert t[r + 2] == chain[Before(r, r + 2)] && t[r] == chain[Before(r, r)];
  }

  /** Linking the new node on all its levels keeps the list, up to a duplicate. */
  lemma {:induction false} AddedInv<T(!new)>(less: (T, T) -> bool, numLevels: nat, levels: nat, chains: seq<Chain<T>>,
          was: Links<T>, back: Backs<T>, head: ListNode<T>, tail: ListNode<T>, n: ListNode<T>, next: Links<T>)
    requires Inv(less, numLevels, levels, chains, was, back, head, tail, true) && n !in chains[0] && n.level < levels
    requires Wide(chains)
    requires Net(Added(less, chains, n), next, head, tail)
    ensures var r := Rank(less, Values(chains[0]), n.value);
            Inv(less, numLevels, levels, Added(less, chains, n), next, back[n := chains[0][r]][chains[0][r + 1] := n],
                head, tail,
                !Holds(less, Values(chains[0]), n.value))
  {
    var r := Rank(less, Values(chains[0]), n.value);
    AddedMembers(less, chains, n);
    JoinedBack(chains[0], back, n, r, head, tail, levels);
    forall l | 0 <= l < |chains|
      ensures InOrder(less, Added(less, chains, n)[l], !Holds(less, Values(chains[0]), n.value))
    {
      AddedOrder(less, numLevels, levels, chains, was, back, head, tail, n, l);
    }
    hide StrictWeakOrder, Members, BackChained, LevelsBelow, InOrder, Chained, Ends, Splice, Holds, Net;
  }

  lemma {:induction false} CutInOrder<T(!new)>(less: (T, T) -> bool, chain: Chain<T>, a: nat, b: nat, strict: bool)
    requires InOrder(less, chain, strict) && 1 <= a <= b < |chain| - 1
    ensures InOrder(less, Cut(chain, a, b), strict)
  {
    hide Cut;
    CutValues(chain, a, b);
  }

  lemma {:induction false} CutBack<T>(chain: Chain<T>, back: Backs<T>, a: nat, b: nat, head: ListNode<T>,
          tail: ListNode<T>, levels: nat)
    requires Ends(chain, head, tail) && BackChained(back, chain) && LevelsBelow(chain, levels)
    requires 1 <= a <= b < |chain| - 1
    ensures BackChained(back[chain[b + 1] := chain[a - 1]], Cut(chain, a, b)) && LevelsBelow(Cut(chain, a, b), levels)
  {
    var t := Cut(chain, a, b);
    var set1 := back[chain[b + 1] := chain[a - 1]];
    forall i | 0 < i < |t| ensures t[i] in set1 && set1[t[i]] == t[i - 1] {
      var i0 := if i < a then i else i + (b + 1 - a);
      assert t[i] == chain[i0];
      if i == a {
        assert t[i - 1] == chain[a - 1];
      } else {
        assert t[i - 1] == chain[i0 - 1];
      }
    }
  }

  /** Unlinking a node on all its levels keeps the list. */
  lemma {:induction false} DroppedInv<T(!new)>(less: (T, T) -> bool, numLevels: nat, levels: nat, chains: seq<Chain<T>>,
          was: Links<T>, back: Backs<T>, head: ListNode<T>, tail: ListNode<T>, strict: bool, n: ListNode<T>,
              next: Links<T>)
    requires Inv(less, numLevels, levels, chains, was, back, head, tail, strict) && n in chains[0] && n != head
    requires n != tail
    requires Net(Dropped(chains, n), next, head, tail)
    ensures var p := Spot(chains[0], n);
            1 <= p < |chains[0]| - 1 &&
            Inv(less, numLevels, levels, Dropped(chains, n), next, back[chains[0][p + 1] := chains[0][p - 1]], head,
                tail, strict)
  {
    var p := Spot(chains[0], n);
    InvIsWide(less, numLevels, levels, chains, was, back, head, tail, strict);
    DroppedMembers(chains, was, n, head, tail);
    CutBack(chains[0], back, p, p, head, tail, levels);
    forall l | 0 <= l < |chains| ensures InOrder(less, Dropped(chains, n)[l], strict) {
      DroppedOrder(less, chains[l], n, head, tail, strict);
    }
    hide StrictWeakOrder, Members, BackChained, LevelsBelow, InOrder, Chained, Cut, Net;
  }

  lemma {:induction false} DroppedOrder<T(!new)>(less: (T, T) -> bool, chain: Chain<T>, n: ListNode<T>,
          head: ListNode<T>, tail: ListNode<T>, strict: bool)
    requires InOrder(less, chain, strict) && Ends(chain, head, tail) && n != head && n != tail
    ensures InOrder(less, Without(chain, n), strict)
  {
    hide InOrder, Cut;
    if n in chain {
      CutInOrder(less, chain, Spot(chain, n), Spot(chain, n), strict);
    }
  }

  /** Unlinking a closed range of values on all levels keeps the list. */
  lemma {:induction false} KeptInv<T(!new)>(less: (T, T) -> bool, numLevels: nat, levels: nat, chains: seq<Chain<T>>,
          was: Links<T>, back: Backs<T>, head: ListNode<T>, tail: ListNode<T>, low: T, high: T, next: Links<T>)
    requires Inv(less, numLevels, levels, chains, was, back, head, tail, true) && Wide(chains) && !less(high, low)
    requires Rank(less, Values(chains[0]), low) < Upper(less, Values(chains[0]), high)
    requires Net(Kept(less, chains, low, high), next, head, tail)
    ensures var r, u := Rank(less, Values(chains[0]), low), Upper(less, Values(chains[0]), high);
            Inv(less, numLevels, levels, Kept(less, chains, low, high), next, back[chains[0][u + 1] := chains[0][r]],
                head, tail, true)
  {
    hide StrictWeakOrder, Members, BackChained, LevelsBelow, Chained, Cut, Weak, Sorted;
    var r, u := Rank(less, Values(chains[0]), low), Upper(less, Values(chains[0]), high);
    KeptMembers(less, chains, low, high, was, head, tail);
    CutBack(chains[0], back, r + 1, u, head, tail, levels);
    forall l | 0 <= l < |chains| ensures InOrder(less, Kept(less, chains, low, high)[l], true) {
      OutsideOrder(less, chains[l], low, high);
    }
  }

  lemma {:induction false} OutsideOrder<T(!new)>(less: (T, T) -> bool, chain: Chain<T>, low: T, high: T)
    requires InOrder(less, chain, true)
    ensures InOrder(less, Outside(less, chain, low, high), true)
  {
    hide Weak, Sorted, Cut;
    var r, u := Rank(less, Values(chain), low), Upper(less, Values(chain), high);
    if r < u {
      CutInOrder(less, chain, r + 1, u, true);
    }
  }

  // ---------- the node a removal looks for ----------

  /** On every level that has the node, nothing before it is equivalent to it. */
  ghost predicate First<T>(less: (T, T) -> bool, chains: seq<Chain<T>>, n: ListNode<T>) {
    forall l :: 0 <= l < |chains| && n in chains[l] ==> FirstAt(less, chains[l], n)
  }

  ghost predicate FirstAt<T>(less: (T, T) -> bool, chain: Chain<T>, n: ListNode<T>)
    requires n in chain
  {
    1 <= Spot(chain, n) < |chain| - 1 && IsRank(less, Values(chain), n.value, Spot(chain, n) - 1)
  }

  lemma {:induction false} FirstInSorted<T(!new)>(less: (T, T) -> bool, chains: seq<Chain<T>>, next: Links<T>,
          head: ListNode<T>, tail: ListNode<T>, n: ListNode<T>)
    requires StrictWeakOrder(less) && Net(chains, next, head, tail) && n != head && n != tail
    requires forall l :: 0 <= l < |chains| ==> InOrder(less, chains[l], true)
    ensures First(less, chains, n)
  {
    hide StrictWeakOrder, Chained, IsRank;
    forall l | 0 <= l < |chains| && n in chains[l] ensures FirstAt(less, chains[l], n) {
      assert InOrder(less, chains[l], true) && Ends(chains[l], head, tail);
      RankOfElement(less, Values(chains[l]), Spot(chains[l], n) - 1);
    }
  }

  lemma {:induction false} SpotOf<T>(chain: Chain<T>, p: nat, head: ListNode<T>, tail: ListNode<T>)
    requires Ends(chain, head, tail) && p < |chain|
    ensures Spot(chain, chain[p]) == p
  {
  }

  lemma {:induction false} FirstInJoined<T>(less: (T, T) -> bool, chain: Chain<T>, n: ListNode<T>, head: ListNode<T>,
          tail: ListNode<T>)
    requires |chain| >= 2 && Ends(Joined(less, chain, n), head, tail)
    requires IsRank(less, Values(Joined(less, chain, n)), n.value, Rank(less, Values(chain), n.value))
    ensures n in Joined(less, chain, n) && FirstAt(less, Joined(less, chain, n), n)
    ensures Without(Joined(less, chain, n), n) == chain
  {
    hide IsRank, Joined, Rank, Without;
    var r := Rank(less, Values(chain), n.value);
    JoinedPlace(less, chain, n);
    SpotOf(Joined(less, chain, n), r + 1, head, tail);
    WithoutJoined(less, chain, n);
  }

  lemma {:induction false} JoinedPlace<T>(less: (T, T) -> bool, chain: Chain<T>, n: ListNode<T>)
    requires |chain| >= 2
    ensures var r := Rank(less, Values(chain), n.value);
            r + 1 < |Joined(less, chain, n)| && Joined(less, chain, n)[r + 1] == n
  {
  }

  lemma {:induction false} WithoutJoined<T>(less: (T, T) -> bool, chain: Chain<T>, n: ListNode<T>)
    requires |chain| >= 2 && n in Joined(less, chain, n)
    requires Spot(Joined(less, chain, n), n) == Rank(less, Values(chain), n.value) + 1
    ensures Without(Joined(less, chain, n), n) == chain
  {
    hide Splice, Cut, Rank;
    CutOfSplice(chain, Rank(less, Values(chain), n.value), n);
  }

  lemma {:induction false} FirstInAdded<T(!new)>(less: (T, T) -> bool, numLevels: nat, levels: nat,
          chains: seq<Chain<T>>, was: Links<T>, back: Backs<T>, head: ListNode<T>, tail: ListNode<T>, n: ListNode<T>,
              next: Links<T>)
    requires Inv(less, numLevels, levels, chains, was, back, head, tail, true) && n !in chains[0] && Wide(chains)
    requires Net(Added(less, chains, n), next, head, tail)
    ensures First(less, Added(less, chains, n), n) && Dropped(Added(less, chains, n), n) == chains
  {
    hide StrictWeakOrder, Chained, Ends, BackChained, LevelsBelow, InOrder, Joined, Members, FirstAt, IsRank, Without;
    var c := Added(less, chains, n);
    forall l | 0 <= l < |chains|
      ensures n in c[l] ==> FirstAt(less, c[l], n)
      ensures Without(c[l], n) == chains[l]
    {
      MembersAt(chains, l, n);
      if l <= n.level {
        AddedOrder(less, numLevels, levels, chains, was, back, head, tail, n, l);
        FirstInJoined(less, chains[l], n, head, tail);
      } else {
        WithoutNothing(chains[l], n);
      }
    }
  }

  lemma {:induction false} WithoutNothing<A>(s: seq<A>, x: A)
    requires x !in s
    ensures Without(s, x) == s
  {
  }
}
