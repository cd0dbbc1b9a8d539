/** The plain skip list, changed in place: as the indexable one, but without distances. An
    insertion links the new node while the search is still going down, and tests for a duplicate
    only afterwards: a duplicate is removed again. A search may start at a hint instead of the
    head. The ghost fields are the chains of all levels, what the pointers hold, and the set of
    allocated nodes, so that the invariant also says that no pointer leads to a freed node and
    that no unlinked node stays allocated. */
module PlainSkipList {
  import opened LevelDraws
  import opened Ordering
  import opened Sequences
  import opened SortedChains

  /** The pointers of two new sentinels. */
  ghost function Nulls<T>(h: ListNode<T>, t: ListNode<T>): (links: Links<T>)
    ensures forall l :: 0 <= l <= h.level ==> (h, l) in links && links[(h, l)] == null
    ensures forall l :: 0 <= l <= t.level ==> (t, l) in links && links[(t, l)] == null
  {
    var keys := (set l: nat | l <= h.level :: (h, l)) + (set l: nat | l <= t.level :: (t, l));
    map k | k in keys :: null
  }

  class SkipList<T(0, !new)> {
    const less: (T, T) -> bool
    const numLevels: nat
    const head: ListNode<T>
    const tail: ListNode<T>
    var levels: nat
    var itemCount: nat
    ghost var chains: seq<Chain<T>>
    ghost var links: Links<T>
    ghost var backs: Backs<T>
    ghost var repr: set<ListNode<T>>

    /** `links` and `backs` say what the allocated nodes point to. */
    ghost predicate Rep()
      reads `links, `backs, `repr, repr
    {
      forall n :: n in repr ==>
        && |n.next| == n.level + 1 && n in backs && n.prev == backs[n]
        && forall l :: 0 <= l <= n.level ==> (n, l) in links && n.next[l] == links[(n, l)]
    }

    /** The list, up to a duplicate key when `strict` is false. The allocated nodes are the linked
        ones, so no pointer between them leads to a freed node. */
    ghost predicate Held(strict: bool)
      reads this, repr
    {
      && Rep()
      && Inv(less, numLevels, levels, chains, links, backs, head, tail, strict)
      && repr == Elements(chains[0])
      && itemCount == |chains[0]| - 2
    }

    constructor (less: (T, T) -> bool, numLevels: nat)
      requires StrictWeakOrder(less) && numLevels >= 1
      ensures Valid() && Contents() == [] && levels == 0
      ensures this.less == less && this.numLevels == numLevels && fresh(repr)
    {
      var filler: T := *;
      var h := new ListNode(filler, numLevels);
      var t := new ListNode(filler, numLevels);
      this.less, this.numLevels, levels, itemCount := less, numLevels, 0, 0;
      head, tail, repr := h, t, {h, t};
      chains, links, backs := Empty(numLevels, h, t), Nulls(h, t), map[h := null, t := null];
      new;
      hide StrictWeakOrder, Inv, Empty, Nulls;
      LinkEnds();
      SetPrev(tail, head);
      EmptyInv(less, numLevels, levels, links, backs, head, tail);
    }

    /** The loop of the constructor. */
    method LinkEnds()
      requires Rep() && head != tail && head in repr && tail in repr && head.level == tail.level == numLevels
      modifies `links, head`next, tail`next
      ensures Rep() && forall l :: 0 <= l < numLevels ==> (head, l) in links && links[(head, l)] == tail
    {
      hide Rep;
      var l := 0;
      while l < numLevels
        invariant 0 <= l <= numLevels && Rep()
        invariant forall m :: 0 <= m < l ==> (head, m) in links && links[(head, m)] == tail
      {
        SetNext(head, l, tail);
        SetNext(tail, l, null);
        l := l + 1;
      }
    }

    ghost predicate Valid()
      reads this, repr
    {
      Held(true)
    }

    /** The abstract state: the elements in order. */
    ghost function Contents(): (s: seq<T>)
      reads `chains
    {
      if |chains| > 0 && |chains[0]| >= 2 then Values(chains[0]) else []
    }

    /** A chain on level `l` that can be walked. */
    ghost predicate Walkable(chain: Chain<T>, l: nat)
      reads `repr
    {
      && StrictWeakOrder(less) && InOrder(less, chain, false)
      && forall i :: 0 <= i < |chain| ==> chain[i] in repr && chain[i].level >= l
    }

    // ---------- one write each ----------

    method SetNext(node: ListNode<T>, l: nat, next: ListNode?<T>)
      requires Rep() && node in repr && l <= node.level
      modifies `links, node`next
      ensures Rep() && links == old(links)[(node, l) := next]
    {
      node.next := node.next[l := next];
      links := links[(node, l) := next];
    }

    method SetPrev(node: ListNode<T>, prev: ListNode?<T>)
      requires Rep() && node in repr
      modifies `backs, node`prev
      ensures Rep() && backs == old(backs)[node := prev]
    {
      node.prev := prev;
      backs := backs[node := prev];
    }

    /** The nodes are given back to the allocator. */
    ghost method Free(freed: set<ListNode<T>>)
      requires Rep()
      modifies `repr
      ensures Rep() && repr == old(repr) - freed
    {
      repr := repr - freed;
    }

    // ---------- search ----------

    /** Reads the level-`l` successor of the node at place `p` of the chain. */
    method Follow(node: ListNode<T>, l: nat, ghost chain: Chain<T>, ghost p: nat) returns (next: ListNode<T>)
      requires Rep() && Walkable(chain, l) && Ends(chain, head, tail) && Chained(links, chain, l)
      requires p < |chain| - 1 && node == chain[p]
      ensures next == chain[p + 1] && (next == tail <==> p + 1 == |chain| - 1) && l < |node.next|
      ensures next == node.next[l]
      ensures next != tail ==> p < |Values(chain)| && next.value == Values(chain)[p]
    {
      hide StrictWeakOrder, InOrder;
      assert node in repr && links[(chain[p], l)] == chain[p + 1];
      next := node.next[l];
    }

    /** The inner loop of the searches: along one level while the next element is less. */
    method Walk(value: T, l: nat, from: ListNode<T>, ghost chain: Chain<T>) returns (cur: ListNode<T>, ghost r: nat)
      requires Rep() && Walkable(chain, l) && Ends(chain, head, tail) && Chained(links, chain, l)
      requires from in chain && from != tail && (from == head || less(from.value, value))
      ensures r < |chain| - 1 && cur == chain[r] && (cur == head || less(cur.value, value)) && cur != tail
      ensures IsRank(less, Values(chain), value, r)
    {
      hide StrictWeakOrder, Rep, Chained, Weak;
      cur, r := from, Spot(chain, from);
      var next := Follow(cur, l, chain, r);
      while next != tail && less(next.value, value)
        invariant r < |chain| - 1 && cur == chain[r] && (cur == head || less(cur.value, value))
        invariant next == chain[r + 1] && (next == tail <==> r + 1 == |chain| - 1)
        decreases |chain| - r
      {
        cur, r := next, r + 1;
        next := Follow(cur, l, chain, r);
      }
      RankHere(chain, value, r);
    }

    /** Where the walk stops is the value's rank. */
    lemma {:induction false} RankHere(chain: Chain<T>, value: T, r: nat)
      requires StrictWeakOrder(less) && InOrder(less, chain, false) && Ends(chain, head, tail) && r < |chain| - 1
      requires chain[r] == head || less(chain[r].value, value)
      requires r + 1 == |chain| - 1 || !less(chain[r + 1].value, value)
      ensures IsRank(less, Values(chain), value, r)
    {
      var s := Values(chain);
      forall i | 0 <= i < r ensures less(s[i], value) {
        WeakBelow(less, s, i, r - 1, value);
      }
      forall i | r <= i < |s| ensures !less(s[i], value) {
        WeakFrom(less, s, r, i, value);
      }
    }

    // ---------- insert ----------

    method NewLevel(draw: nat) returns (level: nat)
      requires Valid() && (draw < numLevels || levels < numLevels)
      modifies `levels
      ensures Valid() && level < levels && (level, levels) == NextLevel(draw, old(levels))
    {
      hide Net, Members, BackChained, InOrder, StrictWeakOrder, Rep;
      level := draw;
      if level >= levels {
        level := levels;
        levels := levels + 1;
      }
    }

    predicate IsValid(node: ListNode?<T>) {
      node != null && node != head && node != tail
    }

    /** One level of the insertion: the search goes on along it, and the node is linked if it
        reaches the level. */
    method InsertLevel(node: ListNode<T>, l: nat, from: ListNode<T>) returns (cur: ListNode<T>)
      requires Rep() && Net(chains, links, head, tail) && l < |chains| && Walkable(chains[l], l)
      requires InOrder(less, chains[l], true)
      requires node in repr && node !in chains[l]
      requires from in chains[l] && from != tail && (from == head || less(from.value, node.value))
      modifies `chains, `links, repr`next
      ensures Rep() && Net(chains, links, head, tail) && Wide(old(chains))
      ensures cur != tail && (cur == head || less(cur.value, node.value))
      ensures var r := Rank(less, Values(old(chains)[l]), node.value);
              cur == old(chains)[l][r]
      ensures chains == old(chains)[l := if l <= node.level then Joined(less, old(chains)[l], node) else old(chains)[l]]
    {
      hide StrictWeakOrder, Rep, Ends, Chained, Weak, Sorted, IsRank, Splice;
      ghost var r;
      ghost var chain := chains[l];
      cur, r := WalkLevel(node.value, l, from);
      if l <= node.level {
        var next := cur.next[l];
        NetSpliced(chains, links, l, r, node, head, tail);
        SetNext(node, l, next);
        SetNext(cur, l, node);
        chains := chains[l := Splice(chains[l], r, node)];
      }
    }

    /** The walk on a strictly sorted level ends at the rank. */
    method WalkLevel(value: T, l: nat, from: ListNode<T>) returns (cur: ListNode<T>, ghost r: nat)
      requires Rep() && Net(chains, links, head, tail) && l < |chains| && Walkable(chains[l], l)
      requires InOrder(less, chains[l], true)
      requires from in chains[l] && from != tail && (from == head || less(from.value, value))
      ensures Wide(chains) && r == Rank(less, Values(chains[l]), value) && r < |chains[l]| - 1 && cur == chains[l][r]
      ensures cur in repr && l <= cur.level && |cur.next| == cur.level + 1 && cur.next[l] == chains[l][r + 1]
      ensures cur != tail && (cur == head || less(cur.value, value))
    {
      hide StrictWeakOrder, Weak, Sorted, IsRank;
      cur, r := Walk(value, l, from, chains[l]);
      RankOfSorted(less, Values(chains[l]), value);
      RankIsUnique(less, Values(chains[l]), value, r, Rank(less, Values(chains[l]), value));
    }

    /** A new node, not linked yet. */
    method Allocate(value: T, level: nat) returns (node: ListNode<T>)
      requires Rep()
      modifies `links, `backs, `repr
      ensures Rep() && fresh(node) && node.value == value && node.level == level
      ensures repr == old(repr) + {node} && links == old(links) + NodeNulls(node) && backs == old(backs)[node := null]
    {
      hide NodeNulls;
      node := new ListNode(value, level);
      links, backs, repr := links + NodeNulls(node), backs[node := null], repr + {node};
    }

    /** The loop of the insertion: from the top level down, searching and linking. */
    method LinkDown(node: ListNode<T>, start: ListNode<T>) returns (cur: ListNode<T>)
      requires Rep() && Inv(less, numLevels, levels, chains, links, backs, head, tail, true)
      requires forall i :: 0 <= i < |chains[0]| ==> chains[0][i] in repr
      requires node in repr && node !in chains[0] && node.level < levels
      requires start in chains[levels - 1] && start != tail && (start == head || less(start.value, node.value))
      modifies `chains, `links, repr`next
      ensures Rep() && Net(chains, links, head, tail) && Wide(old(chains)) && chains == Added(less, old(chains), node)
      ensures var r := Rank(less, Values(old(chains)[0]), node.value);
              r < |old(chains)[0]| - 1 && cur == old(chains)[0][r] && |node.next| > 0
                  && node.next[0] == old(chains)[0][r + 1]
    {
      hide StrictWeakOrder, Rep, Net, Members, BackChained, LevelsBelow, InOrder, Joined, Mixed;
      ghost var c0 := chains;
      LevelFacts(true, backs);
      ghost var c1 := Added(less, c0, node);
      MixedEnds(c0, c1, levels);
      cur := start;
      var l := levels;
      while l > 0
        invariant 0 <= l <= levels && Rep() && Net(chains, links, head, tail) && chains == Mixed(c0, c1, l)
        invariant cur != tail && (cur == head || less(cur.value, node.value)) && (l > 0 ==> cur in c0[l - 1])
        invariant l == 0 ==> cur == c0[0][Rank(less, Values(c0[0]), node.value)]
      {
        l := l - 1;
        MixedStep(c0, c1, l);
        MembersAt(c0, l, node);
        cur := InsertLevel(node, l, cur);
        GoesDown(c0, l, cur);
      }
      NextOfJoined(c0[0], node);
    }

    lemma {:induction false} LevelFacts(strict: bool, was: Backs<T>)
      requires Inv(less, numLevels, levels, chains, links, was, head, tail, strict)
      requires forall i :: 0 <= i < |chains[0]| ==> chains[0][i] in repr
      ensures Wide(chains) && |chains| == numLevels > 0 && Ends(chains[0], head, tail) && Net(chains, links, head, tail)
      ensures forall l :: 0 <= l < |chains| ==> Walkable(chains[l], l) && InOrder(less, chains[l], strict)
    {
      hide StrictWeakOrder, BackChained, LevelsBelow, Weak, Sorted, Chained;
    }

    /** A node of one level is on the level below. */
    lemma {:induction false} GoesDown(c: seq<Chain<T>>, l: nat, x: ListNode<T>)
      requires Members(c) && l < |c| && x in c[l]
      ensures l > 0 ==> x in c[l - 1]
    {
      hide Members;
      MembersAt(c, l, x);
      if l > 0 {
        MembersAt(c, l - 1, x);
      }
    }

    lemma {:induction false} NextOfJoined(chain: Chain<T>, node: ListNode<T>)
      requires Rep() && |chain| >= 2 && |chains| > 0 && chains[0] == Joined(less, chain, node)
      requires Net(chains, links, head, tail) && node in repr
      ensures var r := Rank(less, Values(chain), node.value);
              |node.next| > 0 && node.next[0] == chain[r + 1]
    {
      hide Ends, Rank;
      var r := Rank(less, Values(chain), node.value);
      assert Chained(links, chains[0], 0);
      assert chains[0][r + 1] == node && chains[0][r + 2] == chain[Before(r, r + 2)];
      assert links[(chains[0][r + 1], 0)] == chains[0][r + 2];
    }

    // ---------- remove ----------

    /** One level of a removal. */
    method RemoveLevel(node: ListNode<T>, l: nat, from: ListNode<T>) returns (cur: ListNode<T>)
      requires Rep() && Net(chains, links, head, tail) && l < |chains| && Walkable(chains[l], l)
      requires node in repr && node != head && node != tail && (node in chains[l] ==> FirstAt(less, chains[l], node))
      requires from in chains[l] && from != tail && (from == head || less(from.value, node.value))
      modifies `chains, `links, repr`next
      ensures Rep() && Net(chains, links, head, tail) && chains == old(chains)[l := Without(old(chains)[l], node)]
      ensures cur in old(chains)[l] && cur != tail && (cur == head || less(cur.value, node.value))
    {
      hide StrictWeakOrder, Ends, Chained, IsRank, Cut, InOrder;
      ghost var chain, r := chains[l], 0;
      cur, r := Walk(node.value, l, from, chain);
      var next := Follow(cur, l, chain, r);
      NextIsFirst(chain, node, r);
      if cur.next[l] == node {
        NetCut(chains, links, l, r + 1, r + 1, head, tail);
        var after := Follow(node, l, chain, r + 1);
        SetNext(cur, l, node.next[l]);
        chains := chains[l := Cut(chains[l], r + 1, r + 1)];
      }
    }

    /** Where the walk for the node's value stops, the next node is the node, if the level has it. */
    lemma {:induction false} NextIsFirst(chain: Chain<T>, node: ListNode<T>, r: nat)
      requires Ends(chain, head, tail) && r < |chain| - 1 && IsRank(less, Values(chain), node.value, r) && node != tail
      requires node != head
      requires node in chain ==> FirstAt(less, chain, node)
      ensures chain[r + 1] == node <==> node in chain
      ensures node in chain ==> Spot(chain, node) == r + 1 && r + 1 < |chain| - 1
    {
      if node in chain {
        RankIsUnique(less, Values(chain), node.value, r, Spot(chain, node) - 1);
      }
    }

    /** The loop of a removal. */
    method UnlinkDown(node: ListNode<T>, ghost strict: bool, ghost was: Backs<T>)
      requires Rep() && Inv(less, numLevels, levels, chains, links, was, head, tail, strict)
      requires forall i :: 0 <= i < |chains[0]| ==> chains[0][i] in repr
      requires node in repr && node in chains[0] && node != head && node != tail && First(less, chains, node)
      modifies `chains, `links, repr`next
      ensures Rep() && Net(chains, links, head, tail) && chains == Dropped(old(chains), node)
    {
      hide StrictWeakOrder, Rep, Net, Members, BackChained, InOrder, FirstAt, Without, Mixed;
      ghost var c0 := chains;
      LevelFacts(strict, was);
      ghost var c1 := Dropped(c0, node);
      NotAbove(node, strict, was);
      MixedEnds(c0, c1, levels);
      HeadIsTop(strict, was);
      var cur := head;
      var l := levels;
      while l > 0
        invariant 0 <= l <= levels && Rep() && Net(chains, links, head, tail) && chains == Mixed(c0, c1, l)
        invariant cur != tail && (cur == head || less(cur.value, node.value)) && (l > 0 ==> cur in c0[l - 1])
      {
        l := l - 1;
        MixedStep(c0, c1, l);
        cur := RemoveLevel(node, l, cur);
        GoesDown(c0, l, cur);
      }
    }

    lemma {:induction false} HeadIsTop(strict: bool, was: Backs<T>)
      requires Inv(less, numLevels, levels, chains, links, was, head, tail, strict)
      ensures levels <= |chains| && head != tail && (levels > 0 ==> head in chains[levels - 1])
    {
      hide StrictWeakOrder, Members, BackChained, LevelsBelow, InOrder, Chained;
      assert Ends(chains[0], head, tail) && (levels > 0 ==> Ends(chains[levels - 1], head, tail));
    }

    /** Levels not in use do not have the node. */
    lemma {:induction false} NotAbove(node: ListNode<T>, strict: bool, was: Backs<T>)
      requires Inv(less, numLevels, levels, chains, links, was, head, tail, strict) && node in chains[0] && node != head
      requires node != tail
      ensures node.level < levels <= |chains| && forall l :: levels <= l < |chains| ==> node !in chains[l]
      ensures forall l :: levels <= l < |chains| ==> Without(chains[l], node) == chains[l]
      ensures 0 < Spot(chains[0], node) < |chains[0]| - 1
    {
      hide StrictWeakOrder, BackChained, InOrder, Chained, Members;
      forall l | levels <= l < |chains| ensures node !in chains[l] {
        MembersAt(chains, l, node);
      }
    }

    lemma {:induction false} Neighbours(p: nat, strict: bool)
      requires Held(strict) && 0 < p < |chains[0]| - 1
      ensures var node := chains[0][p];
              node.prev == chains[0][p - 1] && |node.next| > 0 && node.next[0] == chains[0][p + 1] && node in repr
                  && chains[0][p + 1] in repr
    {
      hide StrictWeakOrder, InOrder, Members, LevelsBelow;
      assert Chained(links, chains[0], 0);
      assert links[(chains[0][p], 0)] == chains[0][p + 1] && backs[chains[0][p]] == chains[0][p - 1];
    }

    lemma {:induction false} RemoveFacts(node: ListNode<T>, strict: bool)
      requires Held(strict) && node in chains[0] && node != head && node != tail
      ensures |chains| > 0 && 0 < Spot(chains[0], node) < |chains[0]| - 1 && node in repr
          && forall i :: 0 <= i < |chains[0]| ==> chains[0][i] in repr
      ensures |Dropped(chains, node)[0]| == |chains[0]| - 1 && repr - {node} == Elements(Dropped(chains, node)[0])
    {
      hide StrictWeakOrder, Members, BackChained, InOrder, Chained, LevelsBelow, Without;
      assert Ends(chains[0], head, tail);
      var kept := Elements(Dropped(chains, node)[0]);
      forall x | x in kept || x in repr ensures x in kept <==> x in repr - {node} {
        WithoutElements(chains[0], node, head, tail, x);
      }
      assert kept == repr - {node};
      WithoutSize(chains[0], node);
    }

    lemma {:induction false} WithoutSize(chain: Chain<T>, node: ListNode<T>)
      requires node in chain
      ensures |Without(chain, node)| == |chain| - 1
    {
    }

    method Remove(node: ListNode<T>, ghost strict: bool)
      requires Held(strict) && node in chains[0] && node != head && node != tail && First(less, chains, node)
      modifies `chains, `links, `backs, `repr, `itemCount, repr
      ensures Held(strict) && chains == Dropped(old(chains), node) && repr == old(repr) - {node}
    {
      hide StrictWeakOrder, Rep, Inv, First, Dropped;
      RemoveFacts(node, strict);
      ghost var p := Spot(chains[0], node);
      Neighbours(p, strict);
      ghost var was := backs;
      SetPrev(node.next[0], node.prev);
      UnlinkDown(node, strict, was);
      DroppedInv(less, numLevels, levels, old(chains), old(links), old(backs), head, tail, strict, node, links);
      Free({node});
      itemCount := itemCount - 1;
    }

    // ---------- insert, continued ----------

    lemma {:induction false} BeforeLinking()
      requires Valid()
      ensures Inv(less, numLevels, levels, chains, links, backs, head, tail, true) && Rep()
      ensures |chains| > 0 && Chained(links, chains[0], 0) && head.level == tail.level == numLevels
      ensures levels <= |chains| && head != tail && head in repr && tail in repr && Wide(chains)
      ensures (levels > 0 ==> head in chains[levels - 1]) && forall i :: 0 <= i < |chains[0]| ==> chains[0][i] in repr
      ensures Contents() == Values(chains[0]) && itemCount == |chains[0]| - 2 && repr == Elements(chains[0])
      ensures Ends(chains[0], head, tail)
    {
      hide StrictWeakOrder, BackChained, LevelsBelow, Chained, Weak, Sorted, Members, Rep;
      assert Ends(chains[0], head, tail) && (levels > 0 ==> Ends(chains[levels - 1], head, tail));
    }

    /** A node that reaches the top level in use is on it. */
    lemma {:induction false} OnTop(x: ListNode<T>)
      requires Valid() && x in chains[0] && x.level == levels - 1
      ensures x in chains[levels - 1]
    {
      hide StrictWeakOrder, BackChained, LevelsBelow, Net, InOrder, Members;
      MembersAt(chains, levels - 1, x);
    }

    lemma {:induction false} AddedOwns(c0: seq<Chain<T>>, node: ListNode<T>)
      requires Wide(c0) && |c0| > 0
      ensures Elements(Added(less, c0, node)[0]) == Elements(c0[0]) + {node}
      ensures |Added(less, c0, node)[0]| == |c0[0]| + 1
      ensures Values(Added(less, c0, node)[0])
          == var r, s := Rank(less, Values(c0[0]), node.value), Values(c0[0]); s[..r] + [node.value] + s[r..]
    {
      hide Splice, Rank;
      var r := Rank(less, Values(c0[0]), node.value);
      forall x | x in Elements(Splice(c0[0], r, node)) || x in Elements(c0[0]) + {node}
        ensures x in Elements(Splice(c0[0], r, node)) <==> x in Elements(c0[0]) + {node}
      {
        SpliceElements(c0[0], r, node, x);
      }
      SpliceValues(c0[0], r, node);
    }

    /** A new node on all its levels; the `prev` pointers are not set yet. */
    method Thread(value: T, level: nat, hint: ListNode?<T>)
            returns (node: ListNode<T>, cur: ListNode<T>, next: ListNode<T>)
      requires Valid() && level < levels && (hint == null || hint in chains[0])
      requires (IsValid(hint) ==> less(hint.value, value))
      modifies `chains, `links, `backs, `repr, repr`next
      ensures fresh(node) && node.value == value && node.level == level && Rep() && repr == old(repr) + {node}
      ensures Wide(old(chains)) && |old(chains)| > 0 && chains == Added(less, old(chains), node)
      ensures Net(chains, links, head, tail)
      ensures backs == old(backs)[node := null]
      ensures Inv(less, numLevels, levels, old(chains), old(links) + NodeNulls(node), backs, head, tail, true)
      ensures var r := Rank(less, Values(old(chains)[0]), value);
              r + 1 < |old(chains)[0]| && cur == old(chains)[0][r] && next == old(chains)[0][r + 1]
    {
      hide StrictWeakOrder, Rep, Inv, Added, NodeNulls, Elements, Net, InOrder, Members, Values, Rank;
      BeforeLinking();
      var goodHint := IsValid(hint) && hint.level == levels - 1;
      var start: ListNode<T> := if goodHint then hint else head;
      if goodHint {
        OnTop(hint);
      }
      node := Allocate(value, level);
      InvExtended(less, numLevels, levels, chains, old(links), old(backs), head, tail, node);
      cur := LinkDown(node, start);
      next := node.next[0];
    }

    /** The insertion up to the test for a duplicate. */
    method Link(value: T, level: nat, hint: ListNode?<T>) returns (node: ListNode<T>, next: ListNode<T>)
      requires Valid() && level < levels && (hint == null || hint in chains[0])
      requires (IsValid(hint) ==> less(hint.value, value))
      modifies `chains, `links, `backs, `repr, `itemCount, repr
      ensures fresh(node) && node.value == value && node.level == level
      ensures Wide(old(chains)) && |old(chains)| > 0 && chains == Added(less, old(chains), node)
      ensures repr == old(repr) + {node}
      ensures Held(!Holds(less, Values(old(chains)[0]), value)) && |chains| > 0 && node in chains[0]
      ensures First(less, chains, node) && Dropped(chains, node) == old(chains)
      ensures var r := Rank(less, Values(old(chains)[0]), value);
              r + 1 < |old(chains)[0]| && next == old(chains)[0][r + 1]
    {
      hide StrictWeakOrder, Rep, Inv, First, Dropped, Added, NodeNulls, Holds, Elements, Net, InOrder, Members, Values,
          Rank;
      BeforeLinking();
      ghost var c0 := chains;
      var cur;
      node, cur, next := Thread(value, level, hint);
      ghost var b0 := backs;
      SetPrev(node, cur);
      SetPrev(next, node);
      itemCount := itemCount + 1;
      AfterLinking(c0, old(links) + NodeNulls(node), b0, node);
    }

    lemma {:induction false} AfterLinking(c0: seq<Chain<T>>, l0: Links<T>, b0: Backs<T>, node: ListNode<T>)
      requires Inv(less, numLevels, levels, c0, l0, b0, head, tail, true) && |c0| > 0 && node !in c0[0]
      requires node.level < levels && Wide(c0)
      requires chains == Added(less, c0, node) && Net(chains, links, head, tail)
      ensures var r := Rank(less, Values(c0[0]), node.value);
              Inv(less, numLevels, levels, chains, links, b0[node := c0[0][r]][c0[0][r + 1] := node], head, tail,
                  !Holds(less, Values(c0[0]), node.value))
      ensures First(less, chains, node) && Dropped(chains, node) == c0
      ensures Elements(chains[0]) == Elements(c0[0]) + {node} && |chains[0]| == |c0[0]| + 1 && node in chains[0]
    {
      hide Inv, First, Dropped, Added, Holds, Net, Members, Values, Rank;
      AddedInv(less, numLevels, levels, c0, l0, b0, head, tail, node, links);
      AddedOwns(c0, node);
      FirstInAdded(less, numLevels, levels, c0, l0, b0, head, tail, node, links);
      assert node in Elements(chains[0]);
    }

    /** The test that `insert` makes behind the new node finds exactly the duplicates. */
    lemma {:induction false} DuplicateTest(chain: Chain<T>, value: T)
      requires Ends(chain, head, tail) && StrictWeakOrder(less) && InOrder(less, chain, true)
      ensures var next := chain[Rank(less, Values(chain), value) + 1];
              next != tail && Equivalent(less, next.value, value) <==> Holds(less, Values(chain), value)
    {
      hide StrictWeakOrder, Sorted, Weak, Holds;
      var s := Values(chain);
      var r := Rank(less, s, value);
      RankOfSorted(less, s, value);
      HoldsAtRank(less, s, value, r);
    }

    lemma {:induction false} StrictAgain()
      requires Held(false) && forall l :: 0 <= l < |chains| ==> InOrder(less, chains[l], true)
      ensures Valid()
    {
      hide Net, Members, BackChained, LevelsBelow, StrictWeakOrder, Weak, Sorted, Rep;
    }

    lemma {:induction false} AllStrict()
      requires Valid()
      ensures StrictWeakOrder(less) && forall l :: 0 <= l < |chains| ==> InOrder(less, chains[l], true)
    {
    }

    method Insert(value: T, draw: nat, hint: ListNode?<T>) returns (result: ListNode<T>)
      requires Valid() && (draw < numLevels || levels < numLevels)
      requires (hint == null || hint in chains[0]) && (IsValid(hint) ==> less(hint.value, value))
      modifies this, repr
      ensures Valid() && levels == NextLevel(draw, old(levels)).1
      ensures Contents() == Inserted(less, old(Contents()), value)
      ensures result == tail <==> Holds(less, old(Contents()), value)
      ensures result == tail ==> chains == old(chains) && repr == old(repr) && itemCount == old(itemCount)
      ensures result != tail ==>
          fresh(result) && result.value == value && result.level == NextLevel(draw, old(levels)).0
      ensures result != tail ==>
          Wide(old(chains)) && chains == Added(less, old(chains), result) && repr == old(repr) + {result}
    {
      hide StrictWeakOrder, Rep, Inv, First, Dropped, Added, Holds, Elements, InOrder, Rank;
      BeforeLinking();
      AllStrict();
      var level := NewLevel(draw);
      ghost var c0 := chains;
      var node, next := Link(value, level, hint);
      DuplicateTest(c0[0], value);
      if next != tail && Equivalent(less, next.value, value) {
        Remove(node, false);
        StrictAgain();
        result := tail;
      } else {
        AddedOwns(c0, node);
        BeforeLinking();
        result := node;
      }
    }

    /** Insertion with a hint from outside: one that is not before the value is not passed on. The
        contract does not mention the hint: the result is that of an insertion without one. */
    method InsertHinted(hint: ListNode<T>, value: T, draw: nat) returns (result: ListNode<T>)
      requires Valid() && (draw < numLevels || levels < numLevels) && hint in chains[0]
      modifies this, repr
      ensures Valid() && levels == NextLevel(draw, old(levels)).1
      ensures Contents() == Inserted(less, old(Contents()), value)
      ensures result == tail <==> Holds(less, old(Contents()), value)
      ensures result == tail ==> chains == old(chains) && repr == old(repr) && itemCount == old(itemCount)
      ensures result != tail ==>
          fresh(result) && result.value == value && result.level == NextLevel(draw, old(levels)).0
      ensures result != tail ==>
          Wide(old(chains)) && chains == Added(less, old(chains), result) && repr == old(repr) + {result}
    {
      hide Held, Contents, Holds, Added;
      if IsValid(hint) && !less(hint.value, value) {
        result := Insert(value, draw, null);
      } else {
        result := Insert(value, draw, hint);
      }
    }

    // ---------- lookup and removal by value ----------

    /** The inner loop of `find`: along one level while the next element is not greater. */
    method FindLevel(value: T, l: nat, from: ListNode<T>, ghost chain: Chain<T>)
            returns (cur: ListNode<T>, ghost r: nat)
      requires Rep() && Walkable(chain, l) && InOrder(less, chain, true) && Ends(chain, head, tail)
      requires Chained(links, chain, l)
      requires from in chain && from != tail && (from == head || !less(value, from.value))
      ensures r < |chain| - 1 && cur == chain[r] && (cur == head || !less(value, cur.value)) && cur != tail
      ensures r == Upper(less, Values(chain), value)
    {
      hide StrictWeakOrder, Rep, Chained, InOrder;
      cur, r := from, Spot(chain, from);
      var next := Follow(cur, l, chain, r);
      while next != tail && !less(value, next.value)
        invariant r < |chain| - 1 && cur == chain[r] && (cur == head || !less(value, cur.value))
        invariant next == chain[r + 1] && (next == tail <==> r + 1 == |chain| - 1)
        decreases |chain| - r
      {
        cur, r := next, r + 1;
        next := Follow(cur, l, chain, r);
      }
      UpperHere(chain, value, r);
    }

    lemma {:induction false} UpperHere(chain: Chain<T>, value: T, r: nat)
      requires StrictWeakOrder(less) && InOrder(less, chain, true) && Ends(chain, head, tail) && r < |chain| - 1
      requires chain[r] == head || !less(value, chain[r].value)
      requires r + 1 == |chain| - 1 || less(value, chain[r + 1].value)
      ensures r == Upper(less, Values(chain), value)
    {
      var s := Values(chain);
      forall i | 0 <= i < r ensures !less(value, s[i]) {
        if i < r - 1 {
          Transitive(less, value, s[i], s[r - 1]);
        }
      }
      forall i | r <= i < |s| ensures less(value, s[i]) {
        if r < i {
          Transitive(less, value, s[r], s[i]);
        }
      }
      UpperOfSorted(less, s, value);
      UpperIsUnique(less, s, value, r, Upper(less, s, value));
    }

    /** The last node that is not greater than the value, or the head. */
    method Find(value: T) returns (node: ListNode<T>)
      requires Valid()
      ensures |chains| > 0 && |chains[0]| >= 2 && node in chains[0]
      ensures var u := Upper(less, Values(chains[0]), value);
              node == chains[0][u] && node != tail && (node == head <==> u == 0)
    {
      hide StrictWeakOrder, Rep, Inv, Contents, Elements, Chained, InOrder, Walkable, Upper;
      BeforeLinking();
      LevelFacts(true, backs);
      AllStrict();
      EmptyWithoutLevels(value);
      node := head;
      var l := levels;
      while l > 0
        invariant 0 <= l <= levels && node != tail && (node == head || !less(value, node.value))
        invariant (l > 0 ==> node in chains[l - 1])
        invariant l == 0 ==> node == chains[0][Upper(less, Values(chains[0]), value)]
      {
        l := l - 1;
        ghost var r;
        node, r := FindLevel(value, l, node, chains[l]);
        Descends(l, node);
      }
    }

    lemma {:induction false} Descends(l: nat, x: ListNode<T>)
      requires Valid() && l < |chains| && x in chains[l]
      ensures l > 0 ==> x in chains[l - 1]
    {
      hide StrictWeakOrder, Net, InOrder, Members, BackChained, LevelsBelow;
      GoesDown(chains, l, x);
    }

    lemma {:induction false} EmptyWithoutLevels(value: T)
      requires Valid() && |chains| > 0 && |chains[0]| >= 2 && chains[0][0] == head
      ensures levels == 0 ==> chains[0][Upper(less, Values(chains[0]), value)] == head
    {
      hide StrictWeakOrder, Net, InOrder, Members, BackChained;
      assert |chains[0]| > 2 ==> chains[0][1].level < levels;
    }

    /** The node before the upper bound decides whether the key is there. */
    lemma {:induction false} FloorDecides(value: T)
      requires Valid()
      ensures |chains| > 0 && Ends(chains[0], head, tail) && Contents() == Values(chains[0])
      ensures var u := Upper(less, Values(chains[0]), value);
              var node := chains[0][u];
              && (node != head && Equivalent(less, node.value, value) <==> Holds(less, Contents(), value))
              && (Holds(less, Contents(), value) ==> u > 0 && Rank(less, Contents(), value) == u - 1)
    {
      hide Inv, Rep, Elements, Sorted, StrictWeakOrder, Weak, Holds;
      BeforeLinking();
      AllStrict();
      assert InOrder(less, chains[0], true);
      FloorInSorted(Contents(), value);
      var u := Upper(less, Contents(), value);
      assert u > 0 ==> chains[0][u].value == Contents()[u - 1];
    }

    lemma {:induction false} FloorInSorted(s: seq<T>, value: T)
      requires StrictWeakOrder(less) && Sorted(less, s)
      ensures var u := Upper(less, s, value);
              && (u > 0 && Equivalent(less, s[u - 1], value) <==> Holds(less, s, value))
              && (Holds(less, s, value) ==> Rank(less, s, value) == u - 1)
    {
      hide StrictWeakOrder, Rank, Upper;
      var u := Upper(less, s, value);
      UpperOfSorted(less, s, value);
      if Holds(less, s, value) {
        var i :| 0 <= i < |s| && Equivalent(less, s[i], value);
        if i + 1 < u {
          Transitive(less, s[i], s[u - 1], value);
        }
        assert i == u - 1;
        RankOfSorted(less, s, value);
        assert IsRank(less, s, value, i) by {
          forall k | 0 <= k < i ensures less(s[k], value) {
            Transitive(less, s[k], s[i], value);
          }
          forall k | i <= k < |s| ensures !less(s[k], value) {
            Transitive(less, s[i], s[k], value);
          }
        }
        RankIsUnique(less, s, value, i, Rank(less, s, value));
      }
    }

    method Contains(value: T) returns (found: bool)
      requires Valid()
      ensures found <==> Holds(less, Contents(), value)
    {
      hide Inv, Rep, Elements, Holds, Contents;
      var node := Find(value);
      FloorDecides(value);
      found := node != head && Equivalent(less, node.value, value);
    }

    /** Any linked node can be removed. */
    method EraseNode(node: ListNode<T>)
      requires Valid() && node in chains[0] && node != head && node != tail
      modifies this, repr
      ensures Valid() && levels == old(levels) && chains == Dropped(old(chains), node) && repr == old(repr) - {node}
      ensures var p := Spot(old(chains)[0], node) - 1;
              0 <= p < |old(Contents())| && Contents() == Cut(old(Contents()), p, p)
    {
      hide StrictWeakOrder, Rep, Inv, First, Dropped, InOrder, Elements, Cut;
      BeforeLinking();
      AllStrict();
      LevelFacts(true, backs);
      FirstInSorted(less, chains, links, head, tail, node);
      ghost var c0 := chains;
      Remove(node, true);
      BeforeLinking();
      ValuesDropped(c0, node);
    }

    lemma {:induction false} ValuesDropped(c0: seq<Chain<T>>, node: ListNode<T>)
      requires |c0| > 0 && Ends(c0[0], head, tail) && node in c0[0] && node != head && node != tail
      ensures |Dropped(c0, node)[0]| >= 2
      ensures var p := Spot(c0[0], node) - 1;
              0 <= p < |Values(c0[0])| && Values(Dropped(c0, node)[0]) == Cut(Values(c0[0]), p, p)
    {
      var p := Spot(c0[0], node);
      CutValues(c0[0], p, p);
    }

    method Erase(value: T) returns (erased: nat)
      requires Valid()
      modifies this, repr
      ensures Valid() && levels == old(levels)
      ensures erased == if Holds(less, old(Contents()), value) then 1 else 0
      ensures Contents() == Erased(less, old(Contents()), value)
    {
      hide StrictWeakOrder, Rep, Inv, Holds, Elements, Rank, Upper;
      var node := Find(value);
      FloorDecides(value);
      erased := 0;
      if node != head && Equivalent(less, node.value, value) {
        SpotOf(chains[0], Upper(less, Values(chains[0]), value), head, tail);
        EraseNode(node);
        erased := 1;
      }
    }

    // ---------- remove_between ----------

    /** Level-0 links inside the places `a .. b` lead on along the chain. */
    ghost predicate Inside(links: Links<T>, chain: Chain<T>, a: nat, b: nat) {
      1 <= a && b < |chain| - 1
          && forall i :: a <= i <= b ==> (chain[i], 0) in links && links[(chain[i], 0)] == chain[i + 1]
    }

    /** Walks over the nodes that are not greater than `high`. */
    method SkipRange(high: T, l: nat, from: ListNode<T>, ghost chain: Chain<T>, ghost r: nat) returns (end: ListNode<T>)
      requires Rep() && Walkable(chain, l) && InOrder(less, chain, true) && Ends(chain, head, tail)
      requires Chained(links, chain, l)
      requires r + 1 < |chain| - 1 && from == chain[r + 1] && !less(high, from.value)
      ensures var u := Upper(less, Values(chain), high);
              r < u && end == chain[u + 1]
    {
      hide StrictWeakOrder, Rep, Chained, InOrder;
      end := from;
      ghost var e := r + 1;
      while end != tail && !less(high, end.value)
        invariant r < e < |chain| && end == chain[e] && (end == tail <==> e == |chain| - 1)
        invariant e == r + 1 || !less(high, chain[e - 1].value)
        decreases |chain| - e
      {
        end := Follow(end, l, chain, e);
        e := e + 1;
      }
      UpperHere(chain, high, e - 1);
    }

    /** One level of `remove_between`. */
    method BridgeLevel(low: T, high: T, l: nat, from: ListNode<T>) returns (cur: ListNode<T>)
      requires Rep() && Net(chains, links, head, tail) && l < |chains| && Walkable(chains[l], l)
      requires InOrder(less, chains[l], true)
      requires from in chains[l] && from != tail && (from == head || less(from.value, low)) && !less(high, low)
      modifies `chains, `links, repr`next
      ensures Rep() && Net(chains, links, head, tail) && Wide(old(chains))
      ensures chains == old(chains)[l := Outside(less, old(chains)[l], low, high)]
      ensures var r := Rank(less, Values(old(chains)[l]), low);
              cur == old(chains)[l][r] && cur != tail && (cur == head || less(cur.value, low))
      ensures forall k :: k in old(links) && k != (cur, l) ==> k in links && links[k] == old(links)[k]
    {
      hide StrictWeakOrder, Rep, Ends, Chained, InOrder, Cut, Rank, Upper;
      ghost var chain, r := chains[l], 0;
      cur, r := WalkLevel(low, l, from);
      var next := Follow(cur, l, chain, r);
      RangeTest(chain, low, high, r);
      if next != tail && !less(high, next.value) {
        var end := SkipRange(high, l, next, chain, r);
        NetCut(chains, links, l, r + 1, Upper(less, Values(chain), high), head, tail);
        SetNext(cur, l, end);
        chains := chains[l := Cut(chains[l], r + 1, Upper(less, Values(chain), high))];
      }
    }

    /** The level has nodes in the range exactly if the next node is in it. */
    lemma {:induction false} RangeTest(chain: Chain<T>, low: T, high: T, r: nat)
      requires InOrder(less, chain, true) && StrictWeakOrder(less) && Ends(chain, head, tail) && !less(high, low)
      requires r == Rank(less, Values(chain), low) && r < |chain| - 1
      ensures var u := Upper(less, Values(chain), high);
              r <= u < |chain| - 1 && (chain[r + 1] != tail && !less(high, chain[r + 1].value) <==> r < u)
    {
      hide StrictWeakOrder, Rank, Upper;
      var s := Values(chain);
      ErasedBetweenIsRange(less, s, low, high);
      UpperOfSorted(less, s, high);
      assert chain[r + 1] == tail <==> r == |s|;
      assert r < |s| ==> s[r] == chain[r + 1].value;
    }

    /** The loop of `remove_between`. */
    method BridgeDown(low: T, high: T, ghost was: Backs<T>)
      requires Rep() && Inv(less, numLevels, levels, chains, links, was, head, tail, true)
      requires forall i :: 0 <= i < |chains[0]| ==> chains[0][i] in repr
      requires Wide(chains) && !less(high, low)
      requires Inside(links, chains[0], Rank(less, Values(chains[0]), low) + 1, Upper(less, Values(chains[0]), high))
      modifies `chains, `links, repr`next
      ensures Rep() && Net(chains, links, head, tail) && Wide(old(chains))
      ensures chains == Kept(less, old(chains), low, high)
      ensures Inside(links, old(chains)[0], Rank(less, Values(old(chains)[0]), low) + 1,
          Upper(less, Values(old(chains)[0]), high))
    {
      hide StrictWeakOrder, Rep, Net, Members, BackChained, InOrder, Outside, Mixed, Rank, Upper, Inside, Walkable;
      ghost var c0 := chains;
      LevelFacts(true, was);
      ghost var c1 := Kept(less, c0, low, high);
      KeptAbove(low, high, was);
      MixedEnds(c0, c1, levels);
      HeadIsTop(true, was);
      var cur := head;
      var l := levels;
      while l > 0
        invariant 0 <= l <= levels && Rep() && Net(chains, links, head, tail) && chains == Mixed(c0, c1, l)
        invariant cur != tail && (cur == head || less(cur.value, low)) && (l > 0 ==> cur in c0[l - 1])
        invariant Inside(links, c0[0], Rank(less, Values(c0[0]), low) + 1, Upper(less, Values(c0[0]), high))
      {
        l := l - 1;
        MixedStep(c0, c1, l);
        ghost var before := links;
        cur := BridgeLevel(low, high, l, cur);
        StillInside(before, c0[0], Rank(less, Values(c0[0]), low) + 1, Upper(less, Values(c0[0]), high), cur, l);
        GoesDown(c0, l, cur);
      }
    }

    lemma {:induction false} StillInside(before: Links<T>, chain: Chain<T>, a: nat, b: nat, cur: ListNode<T>, l: nat)
      requires Ends(chain, head, tail) && Inside(before, chain, a, b) && a <= |chain|
      requires (l == 0 ==> cur == chain[a - 1])
      requires forall k :: k in before && k != (cur, l) ==> k in links && links[k] == before[k]
      ensures Inside(links, chain, a, b)
    {
      forall i | a <= i <= b ensures (chain[i], 0) in links && links[(chain[i], 0)] == chain[i + 1] {
        assert (chain[i], 0) in before && (chain[i], 0) != (cur, l);
      }
    }

    /** Levels not in use have nothing to lose. */
    lemma {:induction false} KeptAbove(low: T, high: T, was: Backs<T>)
      requires Inv(less, numLevels, levels, chains, links, was, head, tail, true) && Wide(chains)
      ensures levels <= |chains|
          && forall l :: levels <= l < |chains| ==> Outside(less, chains[l], low, high) == chains[l]
    {
      hide StrictWeakOrder, BackChained, InOrder, Chained, Members;
      forall l | levels <= l < |chains| ensures |chains[l]| == 2 {
        assert Ends(chains[l], head, tail) && Ends(chains[0], head, tail);
        MembersAt(chains, l, chains[l][1]);
      }
    }

    /** The release loop: the removed nodes still lead from the first to the end. */
    method Release(first: ListNode<T>, onePastEnd: ListNode<T>, ghost chain: Chain<T>, ghost a: nat, ghost b: nat)
      requires Rep() && Ends(chain, head, tail) && Inside(links, chain, a, b) && a <= b < |chain| - 1
      requires itemCount >= b + 1 - a
      requires forall i :: 0 <= i < |chain| ==> chain[i] in repr
      requires first == chain[a] && onePastEnd == chain[b + 1]
      modifies `itemCount
      ensures itemCount == old(itemCount) - (b + 1 - a)
    {
      hide Rep, Inside;
      var node: ListNode<T> := first;
      ghost var i := a;
      while node != onePastEnd
        invariant a <= i <= b + 1 < |chain| && node == chain[i] && itemCount == old(itemCount) - (i - a)
        decreases b + 1 - i
      {
        NextInside(chain, a, b, i);
        node := node.next[0];
        itemCount := itemCount - 1;
        i := i + 1;
      }
    }

    lemma {:induction false} NextInside(chain: Chain<T>, a: nat, b: nat, i: nat)
      requires Rep() && Inside(links, chain, a, b) && a <= i <= b && chain[i] in repr
      ensures |chain[i].next| > 0 && chain[i].next[0] == chain[i + 1]
    {
      assert links[(chain[i], 0)] == chain[i + 1];
    }

    /** The range of two nodes: from the rank of the first to the upper bound of the last. */
    lemma {:induction false} RangeEnds(first: ListNode<T>, last: ListNode<T>)
      requires Valid() && first in chains[0] && last in chains[0] && IsValid(first) && IsValid(last)
      requires !less(last.value, first.value)
      ensures |chains[0]| >= 2
      ensures var r, u := Rank(less, Values(chains[0]), first.value), Upper(less, Values(chains[0]), last.value);
              && r < u < |chains[0]| - 1 && chains[0][r + 1] == first && chains[0][u] == last
              && first.prev == chains[0][r] && |last.next| > 0 && last.next[0] == chains[0][u + 1]
              && chains[0][u + 1] in repr
              && Inside(links, chains[0], r + 1, u)
    {
      hide StrictWeakOrder, Rep, Inv, InOrder, Rank, Upper, Elements;
      BeforeLinking();
      AllStrict();
      LevelFacts(true, backs);
      var i, j := Spot(chains[0], first), Spot(chains[0], last);
      Bounds(chains[0], i);
      Bounds(chains[0], j);
      RangeTest(chains[0], first.value, last.value, i - 1);
      Neighbours(i, true);
      Neighbours(j, true);
      assert Chained(links, chains[0], 0);
    }

    lemma {:induction false} Bounds(chain: Chain<T>, i: nat)
      requires InOrder(less, chain, true) && StrictWeakOrder(less) && 0 < i < |chain| - 1
      ensures Rank(less, Values(chain), chain[i].value) == i - 1 && Upper(less, Values(chain), chain[i].value) == i
    {
      hide StrictWeakOrder, Rank, Upper;
      var s := Values(chain);
      RankOfElement(less, s, i - 1);
      RankOfSorted(less, s, s[i - 1]);
      RankIsUnique(less, s, s[i - 1], i - 1, Rank(less, s, s[i - 1]));
      UpperOfSorted(less, s, s[i - 1]);
      assert IsUpper(less, s, s[i - 1], i) by {
        forall k | 0 <= k < i ensures !less(s[i - 1], s[k]) {
          Transitive(less, s[i - 1], s[k], s[i - 1]);
        }
      }
      UpperIsUnique(less, s, s[i - 1], i, Upper(less, s, s[i - 1]));
    }

    /** All nodes from `first` to `last` are unlinked and freed. */
    method RemoveBetween(first: ListNode<T>, last: ListNode<T>)
      requires Valid() && first in chains[0] && last in chains[0] && IsValid(first) && IsValid(last)
      requires !less(last.value, first.value)
      modifies this, repr
      ensures Valid() && levels == old(levels)
      ensures Wide(old(chains)) && chains == Kept(less, old(chains), first.value, last.value) && repr <= old(repr)
      ensures Contents() == ErasedBetween(less, old(Contents()), first.value, last.value)
    {
      hide StrictWeakOrder, Rep, Inv, InOrder, Elements, Rank, Upper, Inside, Outside, Net;
      BeforeLinking();
      LevelFacts(true, backs);
      RangeEnds(first, last);
      ghost var c0, l0, b0 := chains, links, backs;
      ghost var r, u := Rank(less, Values(chains[0]), first.value), Upper(less, Values(chains[0]), last.value);
      var prev, onePastEnd := first.prev, last.next[0];
      SetPrev(onePastEnd, prev);
      BridgeDown(first.value, last.value, b0);
      Release(first, onePastEnd, c0[0], r + 1, u);
      KeptInv(less, numLevels, levels, c0, l0, b0, head, tail, first.value, last.value, links);
      KeptOwns(c0[0], first.value, last.value);
      Free(repr - Elements(chains[0]));
      BeforeLinking();
    }

    lemma {:induction false} KeptOwns(chain: Chain<T>, low: T, high: T)
      requires Ends(chain, head, tail) && Rank(less, Values(chain), low) < Upper(less, Values(chain), high)
      ensures var kept, r, u :=
          Outside(less, chain, low, high), Rank(less, Values(chain), low), Upper(less, Values(chain), high);
              Elements(kept) <= Elements(chain) && |kept| == |chain| - (u - r)
                  && Values(kept) == ErasedBetween(less, Values(chain), low, high)
    {
      var r, u := Rank(less, Values(chain), low), Upper(less, Values(chain), high);
      CutValues(chain, r + 1, u);
      forall x | x in Cut(chain, r + 1, u) ensures x in chain {
        CutElements(chain, r + 1, u, head, tail, x);
      }
    }

    // ---------- remove_all ----------

    /** Every node is freed, the head leads to the tail again; the number of levels stays. */
    method RemoveAll()
      requires Valid()
      modifies this, repr
      ensures Valid() && levels == old(levels) && Contents() == [] && chains == Empty(numLevels, head, tail)
    {
      hide StrictWeakOrder, Rep, Inv, InOrder, Elements, Net, Empty;
      BeforeLinking();
      LevelFacts(true, backs);
      WalkToEnd();
      HeadLinks();
      SetPrev(tail, head);
      itemCount := 0;
      EmptyInv(less, numLevels, levels, links, backs, head, tail);
      chains := Empty(numLevels, head, tail);
      OnlyEnds();
      Free(repr - {head, tail});
    }

    lemma {:induction false} OnlyEnds()
      requires numLevels > 0 && head in repr && tail in repr
      ensures Empty(numLevels, head, tail)[0] == [head, tail] && repr - (repr - {head, tail}) == Elements([head, tail])
    {
    }

    /** The release loop of `remove_all` reaches the tail. */
    method WalkToEnd()
      requires Valid() && |chains| > 0 && Walkable(chains[0], 0) && Ends(chains[0], head, tail)
      requires Chained(links, chains[0], 0)
    {
      hide StrictWeakOrder, Inv, Rep, Walkable, Elements, Chained;
      ghost var i := 1;
      var node := Follow(head, 0, chains[0], 0);
      while node != tail
        invariant 1 <= i < |chains[0]| && node == chains[0][i]
        decreases |chains[0]| - i
      {
        node := Follow(node, 0, chains[0], i);
        i := i + 1;
      }
    }

    method HeadLinks()
      requires Rep() && head in repr && head.level == numLevels
      modifies `links, head`next
      ensures Rep() && forall l :: 0 <= l < numLevels ==> (head, l) in links && links[(head, l)] == tail
    {
      hide Rep;
      var l := 0;
      while l < numLevels
        invariant 0 <= l <= numLevels && Rep()
        invariant forall m :: 0 <= m < l ==> (head, m) in links && links[(head, m)] == tail
      {
        SetNext(head, l, tail);
        l := l + 1;
      }
    }
  }
}
