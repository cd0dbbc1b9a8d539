/** The indexable skip list: linked nodes with one `next` pointer and one `span` distance per
    level, changed in place. The ghost fields are the nodes in level-0 order and what each of them
    holds; every write changes one cell of that record, and what the writes of an operation add up
    to is the subject of `SpanLinks`. Each operation refines one on a sorted sequence. */
module RandomAccessSkipList {
  import opened LevelDraws
  import opened Ordering
  import opened Sequences
  import opened SpanLinks

  function Values<T>(cells: seq<Cell<T>>): (s: seq<T>)
    requires |cells| >= 2
    ensures |s| == |cells| - 2 && forall i :: 0 <= i < |s| ==> s[i] == cells[i + 1].value
  {
    seq(|cells| - 2, i requires 0 <= i < |cells| - 2 => cells[i + 1].value)
  }

  /** Everything the list keeps between calls, as a fact about what the nodes hold. */
  ghost predicate Inv<T(!new)>(less: (T, T) -> bool, numLevels: nat, levels: nat, nodes: seq<Node<T>>,
          cells: seq<Cell<T>>) {
    && StrictWeakOrder(less)
    && 1 <= numLevels && levels <= numLevels
    && |nodes| == |cells|
    && Levels(cells, numLevels)
    && (forall i :: 0 < i < |cells| - 1 ==> cells[i].level < levels)
    && Shape(cells)
    && Linked(nodes, cells, numLevels)
    && BackLinked(nodes, cells)
    && Sorted(less, Values(cells))
  }

  /** On level `l` the search for `v` stops at position `p`: the next node is the tail or not less. */
  ghost predicate StopsAt<T>(less: (T, T) -> bool, cells: seq<Cell<T>>, v: T, p: nat, l: nat)
    requires Shape(cells)
  {
    && p < |cells| - 1 && l <= cells[p].level
    && var q := p + cells[p].span[l];
       IsNext(cells, p, q, l) && (q == |cells| - 1 || !less(cells[q].value, v))
  }

  /** All elements up to position `p` are less than `v`. */
  ghost predicate AllBelow<T>(less: (T, T) -> bool, cells: seq<Cell<T>>, v: T, p: nat) {
    p < |cells| - 1 && forall k :: 1 <= k <= p ==> less(cells[k].value, v)
  }

  /** Stepping to a node that is less than `v` passes only nodes that are less than `v`. */
  lemma {:induction false} StepBelow<T(!new)>(less: (T, T) -> bool, cells: seq<Cell<T>>, v: T, q: nat)
    requires StrictWeakOrder(less) && |cells| >= 2 && Sorted(less, Values(cells))
    requires 1 <= q < |cells| - 1 && less(cells[q].value, v)
    ensures AllBelow(less, cells, v, q)
  {
    forall k | 1 <= k <= q ensures less(cells[k].value, v) {
      if k < q {
        assert less(Values(cells)[k - 1], Values(cells)[q - 1]);
        Transitive(less, cells[k].value, cells[q].value, v);
      }
    }
  }

  /** Where the search stops on level 0 is the value's rank. */
  lemma {:induction false} RankAtStop<T(!new)>(less: (T, T) -> bool, cells: seq<Cell<T>>, v: T, p: nat)
    requires StrictWeakOrder(less) && Shape(cells) && |cells| >= 2 && Sorted(less, Values(cells))
    requires AllBelow(less, cells, v, p) && StopsAt(less, cells, v, p, 0)
    ensures IsRank(less, Values(cells), v, p)
  {
    var s := Values(cells);
    NextOnLevel0(cells, p, p + cells[p].span[0]);
    forall i | p <= i < |s| ensures !less(s[i], v) {
      if p < i {
        Transitive(less, s[p], s[i], v);
      }
    }
  }

  /** The positions where the search stopped, level by level, form the search path of the rank. */
  lemma {:induction false} PathAtStops<T>(less: (T, T) -> bool, cells: seq<Cell<T>>, v: T, path: seq<nat>, r: nat)
    requires Shape(cells) && |cells| >= 2 && r < |cells| - 1
    requires AllBelow(less, cells, v, r)
    requires forall l :: 0 <= l < |path| ==> path[l] <= r && StopsAt(less, cells, v, path[l], l)
    ensures IsPath(cells, path, r, |path|)
  {
    forall l | 0 <= l < |path| ensures IsPrev(cells, path[l], r, l) {
      assert StopsAt(less, cells, v, path[l], l);
    }
  }

  /** One `prev` write, as a change of the node contents. */
  function Back<T>(c: seq<Cell<T>>, i: nat, p: Node?<T>): (d: seq<Cell<T>>)
    requires i < |c|
    ensures |d| == |c| && (Shape(c) ==> Shape(d))
  {
    c[i := c[i].(prev := p)]
  }

  lemma {:induction false} PrevKeepsLinks<T>(nodes: seq<Node<T>>, c: seq<Cell<T>>, i: nat, p: Node?<T>, numLevels: nat)
    requires |nodes| == |c| && Shape(c) && i < |c| && Linked(nodes, c, numLevels)
    ensures Shape(Back(c, i, p)) && Linked(nodes, Back(c, i, p), numLevels)
  {
    var d := Back(c, i, p);
    forall k, l | 0 <= k < |d| - 1 && 0 <= l <= d[k].level && l < numLevels ensures LinkAt(nodes, d, k, l) {
      assert LinkAt(nodes, c, k, l);
    }
  }

  /** The two `prev` writes of an insertion. */
  function WithPrevs<T>(c: seq<Cell<T>>, r: nat, n: Node<T>, p: Node<T>): (d: seq<Cell<T>>)
    requires r + 2 < |c|
    ensures |d| == |c|
  {
    Back(Back(c, r + 2, n), r + 1, p)
  }

  lemma {:induction false} InsertKeepsLinks<T>(numLevels: nat, nodes: seq<Node<T>>, c: seq<Cell<T>>, n: Node<T>, r: nat,
          p: Node<T>)
    requires |nodes| == |c| && Shape(c) && Linked(nodes, c, numLevels) && r + 2 < |c|
    ensures var d := WithPrevs(c, r, n, p);
            Shape(d) && Linked(nodes, d, numLevels)
  {
    PrevKeepsLinks(nodes, c, r + 2, n, numLevels);
    PrevKeepsLinks(nodes, Back(c, r + 2, n), r + 1, p, numLevels);
  }

  lemma {:induction false} InsertKeepsFields<T>(nodes: seq<Node<T>>, c0: seq<Cell<T>>, c: seq<Cell<T>>, n: Node<T>,
          r: nat, added: Cell<T>)
    requires |nodes| == |c0| && r < |c0| - 1 && BackLinked(nodes, c0)
    requires SameNodes(Splice(c0, r, added), c)
    ensures var d := WithPrevs(c, r, n, nodes[r]);
            BackLinked(Splice(nodes, r, n), d) && Widened(c0, d, r)
            && d[r + 1].value == added.value && d[r + 1].level == added.level
  {
    var base, d, ns := Splice(c0, r, added), WithPrevs(c, r, n, nodes[r]), Splice(nodes, r, n);
    forall i | 0 < i < |d| ensures d[i].prev == ns[i - 1] {
      if i != r + 1 && i != r + 2 {
        assert d[i].prev == base[i].prev == c0[Before(r, i)].prev;
      }
    }
  }

  lemma {:induction false} InsertKeepsInv<T(!new)>(less: (T, T) -> bool, numLevels: nat, levels: nat,
          nodes: seq<Node<T>>, c0: seq<Cell<T>>, path: seq<nat>, n: Node<T>, r: nat, added: Cell<T>)
    requires Inv(less, numLevels, levels, nodes, c0) && r < |c0| - 1
    requires IsPath(c0, path, r, |path|) && |path| == numLevels
    requires |added.next| == |added.span| == added.level + 1 && added.level < levels
    requires IsRank(less, Values(c0), added.value, r) && !Holds(less, Values(c0), added.value)
    ensures Shape(Splice(c0, r, added)) && PathFits(Splice(c0, r, added), path, r)
    ensures var d := WithPrevs(LinkSteps(Splice(c0, r, added), path, n, r, |path|), r, n, nodes[r]);
            Inv(less, numLevels, levels, Splice(nodes, r, n), d) && Values(d) == Inserted(less, Values(c0), added.value)
  {
    SpliceLinked(nodes, c0, path, n, r, added);
    var c := LinkSteps(Splice(c0, r, added), path, n, r, |path|);
    InsertKeepsLinks(numLevels, Splice(nodes, r, n), c, n, r, nodes[r]);
    InsertKeepsFields(nodes, c0, c, n, r, added);
    InsertKeepsOrder(less, c0, WithPrevs(c, r, n, nodes[r]), r, added.value);
    InsertLevels(c0, WithPrevs(c, r, n, nodes[r]), r, numLevels, levels);
  }

  lemma {:induction false} InsertKeepsOrder<T(!new)>(less: (T, T) -> bool, c0: seq<Cell<T>>, c: seq<Cell<T>>, r: nat,
          v: T)
    requires StrictWeakOrder(less) && |c0| >= 2 && Sorted(less, Values(c0)) && r < |c0| - 1
    requires Widened(c0, c, r) && c[r + 1].value == v
    requires IsRank(less, Values(c0), v, r) && !Holds(less, Values(c0), v)
    ensures Values(c) == Inserted(less, Values(c0), v) && Sorted(less, Values(c))
  {
    InsertValues(c0, c, r, v);
    RankOfSorted(less, Values(c0), v);
    RankIsUnique(less, Values(c0), v, r, Rank(less, Values(c0), v));
    SortedInsert(less, Values(c0), v, r);
  }

  lemma {:induction false} InsertValues<T>(c0: seq<Cell<T>>, c: seq<Cell<T>>, r: nat, v: T)
    requires 2 <= |c0| && r < |c0| - 1 && Widened(c0, c, r) && c[r + 1].value == v
    ensures Values(c) == Values(c0)[..r] + [v] + Values(c0)[r..]
  {
  }

  lemma {:induction false} InsertLevels<T>(c0: seq<Cell<T>>, c: seq<Cell<T>>, r: nat, numLevels: nat, levels: nat)
    requires Widened(c0, c, r) && r < |c0| - 1 && Levels(c0, numLevels) && c[r + 1].level < levels <= numLevels
    requires forall i :: 0 < i < |c0| - 1 ==> c0[i].level < levels
    ensures Levels(c, numLevels) && forall i :: 0 < i < |c| - 1 ==> c[i].level < levels
  {
  }

  /** The node contents after a removal of the positions `a .. b`: bridged links, then the `prev`
      pointer of the node behind the range. */
  ghost function Removed<T>(nodes: seq<Node<T>>, c: seq<Cell<T>>, path: seq<nat>, links: seq<Detour<T>>, a: nat,
          b: nat): (d: seq<Cell<T>>)
    requires |nodes| == |c| && Shape(c) && |links| == |path| && 1 <= a <= b < |c| - 1 && PathFits(c, path, a - 1)
    ensures |d| == |c| && Shape(d)
  {
    Back(Rewire(c, path, links, a - 1, |path|), b + 1, nodes[a - 1])
  }

  lemma {:induction false} RemovedFields<T>(nodes: seq<Node<T>>, c: seq<Cell<T>>, path: seq<nat>, links: seq<Detour<T>>,
          a: nat, b: nat)
    requires |nodes| == |c| && Shape(c) && |links| == |path| && 1 <= a <= b < |c| - 1 && PathFits(c, path, a - 1)
    requires BackLinked(nodes, c)
    ensures var d := Removed(nodes, c, path, links, a, b);
            && BackLinked(Cut(nodes, a, b), Cut(d, a, b))
            && forall i :: 0 <= i < |c| ==> d[i].value == c[i].value && d[i].level == c[i].level
  {
    var e := Rewire(c, path, links, a - 1, |path|);
    var d := Removed(nodes, c, path, links, a, b);
    var cd, cn := Cut(d, a, b), Cut(nodes, a, b);
    forall i | 0 < i < |cd| ensures cd[i].prev == cn[i - 1] {
      var i0 := if i < a then i else i + (b + 1 - a);
      assert e[i0].prev == c[i0].prev == nodes[i0 - 1];
    }
  }

  lemma {:induction false} RemovedLinks<T>(nodes: seq<Node<T>>, c: seq<Cell<T>>, path: seq<nat>, links: seq<Detour<T>>,
          a: nat, b: nat)
    requires |nodes| == |c| && Shape(c) && |links| == |path| && 1 <= a <= b < |c| - 1 && PathFits(c, path, a - 1)
    requires IsPath(c, path, a - 1, |path|) && Linked(nodes, c, |path|) && CutLinks(nodes, c, path, links, a, b)
    ensures var d := Cut(Removed(nodes, c, path, links, a, b), a, b);
            Shape(d) && Linked(Cut(nodes, a, b), d, |path|)
  {
    CutLinked(nodes, c, path, links, a, b);
    var e := Rewire(c, path, links, a - 1, |path|);
    PrevKeepsLinks(Cut(nodes, a, b), Cut(e, a, b), a, nodes[a - 1], |path|);
    var d := Cut(Removed(nodes, c, path, links, a, b), a, b);
    assert d == Back(Cut(e, a, b), a, nodes[a - 1]);
  }

  lemma {:induction false} RemovalKeepsInv<T(!new)>(less: (T, T) -> bool, numLevels: nat, levels: nat,
          nodes: seq<Node<T>>, c: seq<Cell<T>>, path: seq<nat>, links: seq<Detour<T>>, a: nat, b: nat)
    requires Inv(less, numLevels, levels, nodes, c) && |links| == |path| == numLevels && 1 <= a <= b < |c| - 1
    requires PathFits(c, path, a - 1) && IsPath(c, path, a - 1, numLevels) && CutLinks(nodes, c, path, links, a, b)
    ensures var d := Cut(Removed(nodes, c, path, links, a, b), a, b);
            && Inv(less, numLevels, levels, Cut(nodes, a, b), d)
            && Values(d) == Cut(Values(c), a - 1, b - 1)
  {
    RemovedFields(nodes, c, path, links, a, b);
    RemovedLinks(nodes, c, path, links, a, b);
    RemovedOrder(less, c, Removed(nodes, c, path, links, a, b), a, b);
    RemovedLevels(c, Removed(nodes, c, path, links, a, b), a, b, numLevels, levels);
  }

  lemma {:induction false} RemovedOrder<T(!new)>(less: (T, T) -> bool, c: seq<Cell<T>>, d: seq<Cell<T>>, a: nat, b: nat)
    requires 1 <= a <= b < |c| - 1 && |d| == |c| && Sorted(less, Values(c))
    requires forall i :: 0 <= i < |c| ==> d[i].value == c[i].value
    ensures Values(Cut(d, a, b)) == Cut(Values(c), a - 1, b - 1) && Sorted(less, Values(Cut(d, a, b)))
  {
  }

  lemma {:induction false} RemovedLevels<T>(c: seq<Cell<T>>, d: seq<Cell<T>>, a: nat, b: nat, numLevels: nat,
          levels: nat)
    requires 1 <= a <= b < |c| - 1 && |d| == |c| && Levels(c, numLevels) && levels <= numLevels
    requires forall i :: 0 <= i < |c| ==> d[i].level == c[i].level
    requires forall i :: 0 < i < |c| - 1 ==> c[i].level < levels
    ensures Levels(Cut(d, a, b), numLevels)
    ensures forall i :: 0 < i < |Cut(d, a, b)| - 1 ==> Cut(d, a, b)[i].level < levels
  {
  }

  lemma {:induction false} PathFitsHere<T>(c: seq<Cell<T>>, path: seq<nat>, r: nat)
    requires r < |c| && IsPath(c, path, r, |path|)
    ensures PathFits(c, path, r) && (|path| > 0 ==> path[0] == r)
  {
    forall m | 0 <= m < |path| ensures path[m] <= r && m <= c[path[m]].level {
      assert IsPrev(c, path[m], r, m);
    }
    assert |path| > 0 && path[0] < r ==> IsPrev(c, path[0], r, 0) && c[r].level < 0;
  }

  /** The head's links below level `l` lead straight to the tail. */
  ghost function Cleared<T>(c: seq<Cell<T>>, tail: Node<T>, l: nat): (d: seq<Cell<T>>)
    requires Shape(c) && |c| > 0 && l <= c[0].level + 1
    ensures Shape(d) && SameNodes(c, d)
    ensures forall m :: 0 <= m < l ==> d[0].next[m] == tail && d[0].span[m] == 1
  {
    if l == 0 then c else Relink(Cleared(c, tail, l - 1), 0, l - 1, tail, 1)
  }

  function Ends<A>(s: seq<A>): (t: seq<A>)
    requires |s| >= 2
    ensures |t| == 2 && t[0] == s[0] && t[1] == s[|s| - 1]
  {
    [s[0], s[|s| - 1]]
  }

  lemma {:induction false} ClearedKeepsInv<T(!new)>(less: (T, T) -> bool, numLevels: nat, levels: nat,
          nodes: seq<Node<T>>, c: seq<Cell<T>>)
    requires Inv(less, numLevels, levels, nodes, c)
    ensures var d := Ends(Back(Cleared(c, nodes[|nodes| - 1], numLevels), |c| - 1, nodes[0]));
            Inv(less, numLevels, levels, Ends(nodes), d) && Values(d) == []
  {
    hide Linked, Cleared, Relink, Sorted;
    var d := Ends(Back(Cleared(c, nodes[|nodes| - 1], numLevels), |c| - 1, nodes[0]));
    EndsLinked(nodes, Cleared(c, nodes[|nodes| - 1], numLevels), numLevels);
    PrevKeepsLinks(Ends(nodes), Ends(Cleared(c, nodes[|nodes| - 1], numLevels)), 1, nodes[0], numLevels);
    assert d == Back(Ends(Cleared(c, nodes[|nodes| - 1], numLevels)), 1, nodes[0]);
    EmptySorted(less);
  }

  lemma {:induction false} EmptySorted<T(!new)>(less: (T, T) -> bool)
    ensures Sorted(less, [])
  {
  }

  lemma {:induction false} EndsLinked<T>(nodes: seq<Node<T>>, c: seq<Cell<T>>, numLevels: nat)
    requires |nodes| == |c| >= 2 && Shape(c) && c[0].level == c[|c| - 1].level == numLevels
    requires forall m :: 0 <= m < numLevels ==> c[0].next[m] == nodes[|nodes| - 1] && c[0].span[m] == 1
    ensures Shape(Ends(c)) && Linked(Ends(nodes), Ends(c), numLevels)
  {
    forall i, l | 0 <= i < 1 && 0 <= l <= Ends(c)[i].level && l < numLevels ensures LinkAt(Ends(nodes), Ends(c), i, l) {
    }
  }

  lemma {:induction false} LevelsMayGrow<T(!new)>(less: (T, T) -> bool, numLevels: nat, levels: nat,
          nodes: seq<Node<T>>, cells: seq<Cell<T>>)
    requires Inv(less, numLevels, levels, nodes, cells)
    ensures levels < numLevels ==> Inv(less, numLevels, levels + 1, nodes, cells)
    ensures levels <= numLevels
  {
    hide Linked, Levels, Sorted, BackLinked, StrictWeakOrder;
  }

  /** No element up to position `p` is greater than `v`. */
  ghost predicate NoneAbove<T>(less: (T, T) -> bool, cells: seq<Cell<T>>, v: T, p: nat) {
    p < |cells| - 1 && forall k :: 1 <= k <= p ==> !less(v, cells[k].value)
  }

  /** Position `p` holds the last element that is not greater than `v`, or the head. */
  ghost predicate IsFloor<T>(less: (T, T) -> bool, cells: seq<Cell<T>>, v: T, p: nat) {
    NoneAbove(less, cells, v, p) && forall k :: p < k < |cells| - 1 ==> less(v, cells[k].value)
  }

  lemma {:induction false} StepNotAbove<T(!new)>(less: (T, T) -> bool, cells: seq<Cell<T>>, v: T, q: nat)
    requires StrictWeakOrder(less) && |cells| >= 2 && Sorted(less, Values(cells))
    requires 1 <= q < |cells| - 1 && !less(v, cells[q].value)
    ensures NoneAbove(less, cells, v, q)
  {
    forall k | 1 <= k <= q ensures !less(v, cells[k].value) {
      if k < q {
        assert less(Values(cells)[k - 1], Values(cells)[q - 1]);
        Transitive(less, v, cells[k].value, cells[q].value);
      }
    }
  }

  lemma {:induction false} FloorAtStop<T(!new)>(less: (T, T) -> bool, cells: seq<Cell<T>>, v: T, p: nat)
    requires StrictWeakOrder(less) && |cells| >= 2 && Sorted(less, Values(cells))
    requires NoneAbove(less, cells, v, p) && (p + 1 == |cells| - 1 || less(v, cells[p + 1].value))
    ensures IsFloor(less, cells, v, p)
  {
    forall k | p < k < |cells| - 1 ensures less(v, cells[k].value) {
      if p + 1 < k {
        assert less(Values(cells)[p], Values(cells)[k - 1]);
        Transitive(less, v, cells[p + 1].value, cells[k].value);
      }
    }
  }

  /** The floor is equivalent to the value exactly when the list holds the value's key, and it
      then stands right after the elements that come before the value. */
  lemma {:induction false} FloorDecides<T(!new)>(less: (T, T) -> bool, cells: seq<Cell<T>>, v: T, p: nat)
    requires StrictWeakOrder(less) && |cells| >= 2 && Sorted(less, Values(cells)) && IsFloor(less, cells, v, p)
    ensures p > 0 && Equivalent(less, cells[p].value, v) <==> Holds(less, Values(cells), v)
    ensures Holds(less, Values(cells), v) ==> p == Rank(less, Values(cells), v) + 1
  {
    var s := Values(cells);
    if p > 0 && Equivalent(less, cells[p].value, v) {
      assert Equivalent(less, s[p - 1], v);
    }
    if Holds(less, s, v) {
      RankOfSorted(less, s, v);
      var r := Rank(less, s, v);
      HoldsAtRank(less, s, v, r);
      assert !less(v, cells[r + 1].value);
      if r + 1 < p {
        assert less(s[r], s[p - 1]);
        assert !less(v, cells[p].value);
        Transitive(less, s[r], s[p - 1], v);
      }
    }
  }

  class SkipList<T(0, !new)> {
    const less: (T, T) -> bool
    const numLevels: nat
    var levels: nat
    var head: Node<T>
    var tail: Node<T>
    var itemCount: nat
    ghost var nodes: seq<Node<T>>
    ghost var cells: seq<Cell<T>>
    ghost var repr: set<Node<T>>

    /** `nodes` are distinct objects and `cells` says what each of them holds. */
    ghost predicate Rep()
      reads `nodes, `cells, `repr, repr
    {
      && |nodes| == |cells|
      && (forall i, j :: 0 <= i < j < |nodes| ==> nodes[i] != nodes[j])
      && forall i :: 0 <= i < |nodes| ==>
           && nodes[i] in repr && nodes[i].value == cells[i].value && nodes[i].level == cells[i].level
           && nodes[i].prev == cells[i].prev && nodes[i].next == cells[i].next && nodes[i].span == cells[i].span
    }

    ghost predicate Valid()
      reads this, repr
    {
      && Rep()
      && Inv(less, numLevels, levels, nodes, cells)
      && head == nodes[0] && tail == nodes[|nodes| - 1]
      && itemCount == |nodes| - 2
    }

    /** The abstract state: the elements in order. */
    ghost function Contents(): (s: seq<T>)
      reads `cells
    {
      if |cells| >= 2 then Values(cells) else []
    }

    constructor (less: (T, T) -> bool, numLevels: nat)
      requires StrictWeakOrder(less) && numLevels >= 1
      ensures Valid() && Contents() == [] && levels == 0
      ensures this.less == less && this.numLevels == numLevels && fresh(repr)
    {
      var filler: T := *;
      var h := new Node(filler, numLevels);
      var t := new Node(filler, numLevels);
      this.less, this.numLevels, levels, itemCount := less, numLevels, 0, 0;
      head, tail, nodes, repr := h, t, [h, t], {h, t};
      var l := 0;
      while l < numLevels
        invariant 0 <= l <= numLevels
        invariant |h.next| == |h.span| == numLevels + 1 == |t.next| == |t.span|
        invariant forall m :: 0 <= m < l ==> h.next[m] == t && h.span[m] == 1
        invariant h.prev == null
      {
        h.next, t.next, h.span := h.next[l := t], t.next[l := null], h.span[l := 1];
        l := l + 1;
      }
      t.prev := h;
      cells := [Cell(filler, numLevels, null, h.next, h.span), Cell(filler, numLevels, h, t.next, t.span)];
    }

    lemma {:induction false} WalkFacts(value: T)
      requires Valid()
      ensures Rep() && Walkable() && |nodes| == |cells| >= 2 && Shape(cells)
      ensures head == nodes[0] && cells[0].level == numLevels >= 1
      ensures StrictWeakOrder(less) && Sorted(less, Values(cells)) && Contents() == Values(cells)
      ensures AllBelow(less, cells, value, 0)
    {
    }

    method FindChain(value: T) returns (chain: seq<Node<T>>, indexes: seq<nat>, index: nat)
      requires Valid()
      ensures IsRank(less, Contents(), value, index)
      ensures IsPath(cells, indexes, index, numLevels)
      ensures |chain| == numLevels && forall l :: 0 <= l < numLevels ==> chain[l] == nodes[indexes[l]]
    {
      hide Inv, Rep, Walkable, AllBelow, StopsAt, IsPath, IsRank, Contents;
      WalkFacts(value);
      index := 0;
      var cur := head;
      chain, indexes := seq(numLevels, _ => cur), seq(numLevels, _ => 0);
      var l := numLevels;
      while l > 0
        invariant 0 <= l <= numLevels && |chain| == |indexes| == numLevels
        invariant index < |nodes| - 1 && cur == nodes[index] && cells[index].level >= l
        invariant AllBelow(less, cells, value, index)
        invariant forall m :: l <= m < numLevels ==>
                    indexes[m] <= index && chain[m] == nodes[indexes[m]] && StopsAt(less, cells, value, indexes[m], m)
        invariant l == 0 ==> index == indexes[0]
      {
        l := l - 1;
        index, cur := Advance(value, l, index, cur);
        chain, indexes := chain[l := cur], indexes[l := index];
      }
      PathAtStops(less, cells, value, indexes, index);
      RankAtStop(less, cells, value, index);
    }

    /** The pure facts a walk along the links relies on. */
    ghost predicate Walkable()
      reads `nodes, `cells, `tail
    {
      && |nodes| == |cells| >= 2 && Shape(cells) && Linked(nodes, cells, numLevels)
      && StrictWeakOrder(less) && Sorted(less, Values(cells))
      && tail == nodes[|nodes| - 1]
    }

    /** Reads one link: the level-`l` successor of the node at position `i` and its distance. */
    method Follow(ghost i: nat, node: Node<T>, l: nat) returns (next: Node<T>, span: nat)
      requires Rep() && Walkable() && l < numLevels
      requires i < |nodes| - 1 && node == nodes[i] && l <= cells[i].level
      ensures LinkAt(nodes, cells, i, l)
      ensures span == cells[i].span[l] && next == nodes[i + span]
      ensures next == tail <==> i + span == |nodes| - 1
      ensures next.value == cells[i + span].value
    {
      assert LinkAt(nodes, cells, i, l);
      next, span := node.next[l], node.span[l];
    }

    /** The inner loop of the searches: walk along level `l` while the next element is less. */
    method Advance(value: T, l: nat, from: nat, node: Node<T>) returns (index: nat, cur: Node<T>)
      requires Rep() && Walkable() && l < numLevels
      requires from < |nodes| - 1 && node == nodes[from] && cells[from].level >= l
      requires AllBelow(less, cells, value, from)
      ensures from <= index < |nodes| - 1 && cur == nodes[index] && cells[index].level >= l
      ensures AllBelow(less, cells, value, index) && StopsAt(less, cells, value, index, l)
    {
      hide Rep, Linked, Sorted, StrictWeakOrder, AllBelow;
      index, cur := from, node;
      var next, span := Follow(index, cur, l);
      while next != tail && less(next.value, value)
        invariant from <= index < |nodes| - 1 && cur == nodes[index] && cells[index].level >= l
        invariant AllBelow(less, cells, value, index)
        invariant LinkAt(nodes, cells, index, l) && span == cells[index].span[l]
        invariant next == tail <==> index + span == |nodes| - 1
        invariant next == nodes[index + span] && next.value == cells[index + span].value
        decreases |nodes| - index
      {
        StepBelow(less, cells, value, index + span);
        index, cur := index + span, next;
        next, span := Follow(index, cur, l);
      }
    }

    // ---------- one write each ----------

    /** Rewrites one link of the node at position `i`. */
    method SetLink(ghost i: nat, node: Node<T>, l: nat, next: Node?<T>, span: int)
      requires Rep() && Shape(cells)
      requires i < |nodes| && node == nodes[i] && l <= cells[i].level
      modifies `cells, node
      ensures Rep() && Shape(cells)
      ensures cells == Relink(old(cells), i, l, next, span)
    {
      node.next, node.span := node.next[l := next], node.span[l := span];
      cells := Relink(cells, i, l, next, span);
    }

    method SetPrev(ghost i: nat, node: Node<T>, prev: Node?<T>)
      requires Rep() && i < |nodes| && node == nodes[i]
      modifies `cells, node
      ensures Rep() && cells == Back(old(cells), i, prev)
    {
      node.prev := prev;
      cells := Back(cells, i, prev);
    }

    method NewLevel(draw: nat) returns (level: nat)
      requires Valid() && (draw < numLevels || levels < numLevels)
      modifies `levels
      ensures Valid() && level < levels && (level, levels) == NextLevel(draw, old(levels))
    {
      hide Inv, Rep;
      LevelsMayGrow(less, numLevels, levels, nodes, cells);
      level := draw;
      if level >= levels {
        level := levels;
        levels := levels + 1;
      }
    }

    // ---------- insert ----------

    /** One round of the patch loop of `insert`. */
    method LinkLevel(chain: Node<T>, indexes: seq<nat>, index: nat, node: Node<T>, l: nat)
      requires Rep() && Shape(cells) && index + 1 < |nodes| && node == nodes[index + 1]
      requires l < |indexes| && indexes[l] <= index && l <= cells[indexes[l]].level && chain == nodes[indexes[l]]
      modifies `cells, node, chain
      ensures Rep() && cells == LinkStep(old(cells), indexes, node, index, l)
    {
      var next, span := chain.next[l], chain.span[l];
      if l > node.level {
        SetLink(indexes[l], chain, l, next, span + 1);
      } else {
        SetLink(index + 1, node, l, next, span - (index - indexes[l]));
        SetLink(indexes[l], chain, l, node, index + 1 - indexes[l]);
      }
    }

    /** The patch loop of `insert`, run on the list with the new node already at its position. */
    method LinkIn(chain: seq<Node<T>>, indexes: seq<nat>, index: nat, node: Node<T>)
      requires Rep() && Shape(cells) && index + 1 < |nodes| && node == nodes[index + 1]
      requires PathFits(cells, indexes, index)
      requires |chain| == |indexes| && forall l :: 0 <= l < |chain| ==> chain[l] == nodes[indexes[l]]
      modifies `cells, repr
      ensures Rep() && cells == LinkSteps(old(cells), indexes, node, index, |indexes|)
    {
      hide LinkStep;
      var l := 0;
      while l < |indexes|
        invariant 0 <= l <= |indexes|
        invariant Rep() && cells == LinkSteps(old(cells), indexes, node, index, l)
      {
        LinkLevel(chain[l], indexes, index, node, l);
        l := l + 1;
      }
    }

    /** Ghost bookkeeping: the new node takes its place in the order before any pointer says so. */
    ghost method Enter(r: nat, node: Node<T>, added: Cell<T>)
      requires Rep() && Shape(cells) && r < |nodes| && node !in nodes
      requires added == Cell(node.value, node.level, node.prev, node.next, node.span)
      requires |added.next| == |added.span| == added.level + 1
      modifies `cells, `nodes, `repr
      ensures Rep() && Shape(cells)
      ensures cells == Splice(old(cells), r, added) && nodes == Splice(old(nodes), r, node)
      ensures repr == old(repr) + {node}
    {
      cells, nodes, repr := Splice(cells, r, added), Splice(nodes, r, node), repr + {node};
    }

    /** All writes of `insert`: the node is allocated, linked in on its levels, and the two `prev`
        pointers beside it are set. */
    method Write(value: T, level: nat, chain: seq<Node<T>>, indexes: seq<nat>, index: nat)
      returns (node: Node<T>, ghost added: Cell<T>)
      requires Rep() && Shape(cells) && index < |nodes| - 1 && LinkAt(nodes, cells, index, 0)
      requires |indexes| > 0 && indexes[0] == index && PathFits(cells, indexes, index)
      requires |chain| == |indexes| && forall l :: 0 <= l < |chain| ==> chain[l] == nodes[indexes[l]]
      modifies `cells, `nodes, `repr, repr
      ensures Rep() && fresh(node) && node.value == value && node.level == level
      ensures nodes == Splice(old(nodes), index, node) && repr == old(repr) + {node}
      ensures added.value == value && added.level == level && |added.next| == |added.span| == level + 1
      ensures Shape(Splice(old(cells), index, added)) && PathFits(Splice(old(cells), index, added), indexes, index)
      ensures cells
          == WithPrevs(LinkSteps(Splice(old(cells), index, added), indexes, node, index, |indexes|), index, node,
              old(nodes)[index])
    {
      hide LinkSteps, LinkAt, IsPrev;
      node := new Node(value, level);
      added := Cell(value, level, null, node.next, node.span);
      Enter(index, node, added);
      LinkIn(chain, indexes, index, node);
      NewNodeNext(old(nodes), old(cells), indexes, node, index, added);
      SetPrev(index + 2, node.next[0], node);
      SetPrev(index + 1, node, chain[0]);
    }

    lemma {:induction false} PathFacts(indexes: seq<nat>, index: nat)
      requires Valid() && index < |nodes| - 1 && IsPath(cells, indexes, index, numLevels)
      ensures |nodes| == |cells| && Shape(cells) && LinkAt(nodes, cells, index, 0)
      ensures |indexes| == numLevels > 0 && indexes[0] == index && PathFits(cells, indexes, index)
    {
      PathFitsHere(cells, indexes, index);
      assert LinkAt(nodes, cells, index, 0);
    }

    /** The writing half of `insert`: the value's place is known and it is not there yet. */
    method Place(value: T, level: nat, chain: seq<Node<T>>, indexes: seq<nat>, index: nat) returns (node: Node<T>)
      requires Valid() && level < levels && index < |nodes| - 1
      requires IsPath(cells, indexes, index, numLevels)
      requires |chain| == numLevels && forall l :: 0 <= l < numLevels ==> chain[l] == nodes[indexes[l]]
      requires IsRank(less, Contents(), value, index) && !Holds(less, Contents(), value)
      modifies `cells, `nodes, `repr, `itemCount, repr
      ensures Valid() && fresh(node) && node.value == value && node.level == level
      ensures nodes == Splice(old(nodes), index, node) && repr == old(repr) + {node}
      ensures Contents() == Inserted(less, old(Contents()), value)
    {
      hide Inv, LinkSteps, Splice, WithPrevs, Levels, Linked, LinkAt, Rep, IsPath, IsRank, Holds, Inserted, PathFits,
          Shape;
      PathFacts(indexes, index);
      itemCount := itemCount + 1;
      ghost var added;
      node, added := Write(value, level, chain, indexes, index);
      InsertKeepsInv(less, numLevels, levels, old(nodes), old(cells), indexes, node, index, added);
      assert nodes[0] == old(nodes)[Before(index, 0)];
      assert nodes[|nodes| - 1] == old(nodes)[Before(index, |nodes| - 1)];
    }

    /** The reading half of `insert`: the search path of the value, and whether its key is taken. */
    method Lookup(value: T) returns (chain: seq<Node<T>>, indexes: seq<nat>, index: nat, taken: bool)
      requires Valid()
      ensures taken <==> Holds(less, Contents(), value)
      ensures index < |nodes| - 1 && IsRank(less, Contents(), value, index) && IsPath(cells, indexes, index, numLevels)
      ensures |chain| == numLevels && forall l :: 0 <= l < numLevels ==> chain[l] == nodes[indexes[l]]
    {
      chain, indexes, index := FindChain(value);
      PathFitsHere(cells, indexes, index);
      HoldsAtRank(less, Contents(), value, index);
      var next, span := Follow(index, chain[0], 0);
      NextOnLevel0(cells, index, index + span);
      taken := next != tail && Equivalent(less, next.value, value);
    }

    method Insert(value: T, draw: nat) returns (result: Node<T>)
      requires Valid() && (draw < numLevels || levels < numLevels)
      modifies this, repr
      ensures Valid() && fresh(repr - old(repr))
      ensures Contents() == Inserted(less, old(Contents()), value)
      ensures result == tail <==> Holds(less, old(Contents()), value)
      ensures levels == NextLevel(draw, old(levels)).1
      ensures result != tail ==>
                && fresh(result) && result in nodes && result.value == value
                && result.level == NextLevel(draw, old(levels)).0
                && exists r: nat :: r < |old(nodes)| && nodes == Splice(old(nodes), r, result)
      ensures result == tail ==> nodes == old(nodes) && repr == old(repr)
    {
      hide Inv, IsPath, IsRank, Inserted, Holds, Contents, NextLevel;
      var level := NewLevel(draw);
      var chain, indexes, index, taken := Lookup(value);
      if taken {
        return tail;
      }
      result := Place(value, level, chain, indexes, index);
    }

    // ---------- lookup by position ----------

    lemma {:induction false} ValidIsWalkable()
      requires Valid()
      ensures Rep() && Walkable() && 1 <= numLevels && levels <= numLevels
      ensures head == nodes[0] && cells[0].level == numLevels && itemCount == |nodes| - 2
      ensures itemCount > 0 ==> levels > 0
    {
    }

    /** The element at an index: levels top down, along each while the span still fits. */
    method At(index: nat) returns (node: Node<T>)
      requires Valid() && index < itemCount
      ensures index + 1 < |nodes| && node == nodes[index + 1] && node.value == Contents()[index]
    {
      hide Rep, Walkable, Inv;
      ValidIsWalkable();
      var l := levels;
      node := head;
      var left := index + 1;
      ghost var p: nat := 0;
      while l > 0
        invariant 0 <= l <= levels && 0 <= left && p < |nodes| - 1 && node == nodes[p] && p + left == index + 1
        invariant cells[p].level >= l || p == 0
        invariant l == 0 ==> left == 0
      {
        l := l - 1;
        node, left, p := Descend(l, node, left, p);
      }
      ElementAt(index + 1);
    }

    lemma {:induction false} ElementAt(p: nat)
      requires Valid() && 1 <= p < |nodes| - 1
      ensures nodes[p].value == Contents()[p - 1]
    {
    }

    /** The inner loop of `at`: along one level while the span still fits. */
    method Descend(l: nat, from: Node<T>, left: nat, ghost p: nat) returns (node: Node<T>, rest: nat, ghost q: nat)
      requires Rep() && Walkable() && l < numLevels && p < |nodes| - 1 && from == nodes[p] && p + left < |nodes| - 1
      requires l <= cells[p].level
      ensures p <= q < |nodes| - 1 && node == nodes[q] && q + rest == p + left && l <= cells[q].level
      ensures l == 0 ==> rest == 0
    {
      hide Rep, Linked, Sorted, StrictWeakOrder;
      node, rest, q := from, left, p;
      var next, span := Follow(q, node, l);
      while span <= rest
        invariant p <= q < |nodes| - 1 && node == nodes[q] && q + rest == p + left && l <= cells[q].level
        invariant LinkAt(nodes, cells, q, l) && span == cells[q].span[l] && next == nodes[q + span]
        decreases rest
      {
        rest, node, q := rest - span, next, q + span;
        next, span := Follow(q, node, l);
      }
      if l == 0 {
        NextOnLevel0(cells, q, q + span);
      }
    }

    /** The index of a node, or the size for the tail: what the search path adds up to. */
    method IndexOf(node: Node<T>) returns (index: nat)
      requires Valid() && node in nodes && node != head
      ensures index + 1 < |nodes| && nodes[index + 1] == node && (index == itemCount <==> node == tail)
      ensures forall p :: 0 <= p < |nodes| && nodes[p] == node ==> p == index + 1
    {
      ghost var p :| 0 <= p < |nodes| && nodes[p] == node;
      var chain, indexes;
      chain, indexes, index := FindChainTo(node, p);
    }

    /** The search path of an element's own value, or of the end of the list for the tail. */
    method FindChainTo(node: Node<T>, ghost p: nat) returns (chain: seq<Node<T>>, indexes: seq<nat>, index: nat)
      requires Valid() && 1 <= p < |nodes| && nodes[p] == node
      ensures index == p - 1 && IsPath(cells, indexes, index, numLevels)
      ensures |chain| == numLevels && forall l :: 0 <= l < numLevels ==> chain[l] == nodes[indexes[l]]
    {
      if node == tail {
        chain, indexes, index := FindEndChain();
      } else {
        chain, indexes, index := FindChain(node.value);
        RankOfElement(less, Values(cells), p - 1);
        RankIsUnique(less, Values(cells), node.value, index, p - 1);
      }
    }

    method FindEndChain() returns (chain: seq<Node<T>>, indexes: seq<nat>, index: nat)
      requires Valid()
      ensures index == |nodes| - 2 && IsPath(cells, indexes, index, numLevels)
      ensures |chain| == numLevels && forall l :: 0 <= l < numLevels ==> chain[l] == nodes[indexes[l]]
    {
      index := 0;
      var cur := head;
      chain, indexes := seq(numLevels, _ => cur), seq(numLevels, _ => 0);
      var l := numLevels;
      while l > 0
        invariant 0 <= l <= numLevels && |chain| == |indexes| == numLevels
        invariant index < |nodes| - 1 && cur == nodes[index] && cells[index].level >= l
        invariant forall m :: l <= m < numLevels ==>
                    indexes[m] <= index && chain[m] == nodes[indexes[m]] && IsPrev(cells, indexes[m], |nodes| - 2, m)
        invariant l == 0 ==> index == indexes[0]
      {
        l := l - 1;
        index, cur := RunOut(l, index, cur);
        chain, indexes := chain[l := cur], indexes[l := index];
      }
      PathFitsHere(cells, indexes, |nodes| - 2);
    }

    /** The inner loop of `find_end_chain`: along one level to its last node. */
    method RunOut(l: nat, from: nat, node: Node<T>) returns (index: nat, cur: Node<T>)
      requires Rep() && Walkable() && l < numLevels
      requires from < |nodes| - 1 && node == nodes[from] && cells[from].level >= l
      ensures from <= index < |nodes| - 1 && cur == nodes[index] && IsPrev(cells, index, |nodes| - 2, l)
    {
      index, cur := from, node;
      var next, span := Follow(index, cur, l);
      while next != tail
        invariant from <= index < |nodes| - 1 && cur == nodes[index] && cells[index].level >= l
        invariant LinkAt(nodes, cells, index, l) && span == cells[index].span[l]
        invariant next == tail <==> index + span == |nodes| - 1
        invariant next == nodes[index + span]
        decreases |nodes| - index
      {
        index, cur := index + span, next;
        next, span := Follow(index, cur, l);
      }
    }

    // ---------- removal ----------

    /** One round of the patch loop of `remove`. */
    method DetachLevel(chain: Node<T>, ghost from: nat, node: Node<T>, ghost p: nat, l: nat)
      requires Rep() && Shape(cells) && from < |nodes| && p < |nodes| && chain == nodes[from] && node == nodes[p]
      requires l <= cells[from].level && (cells[from].next[l] == node ==> l <= cells[p].level)
      requires from == 0 || less(cells[from].value, cells[p].value)
      requires head == nodes[0] && (l == 0 ==> cells[from].next[l] == node)
      modifies `cells, chain
      ensures Rep() && Shape(cells)
      ensures var d := DropLink(nodes, old(cells), from, p, l);
              cells == Relink(old(cells), from, l, d.next, d.span)
    {
      if chain.next[l] == node {
        SetLink(from, chain, l, node.next[l], chain.span[l] + node.span[l] - 1);
      } else if chain == head || less(chain.value, node.value) {
        if l > 0 {
          SetLink(from, chain, l, chain.next[l], chain.span[l] - 1);
        }
      }
    }

    /** The patch loop of `remove`. */
    method Detach(chain: seq<Node<T>>, indexes: seq<nat>, node: Node<T>, ghost p: nat)
      requires Rep() && Shape(cells) && 1 <= p < |nodes| && node == nodes[p] && head == nodes[0]
      requires PathFits(cells, indexes, p - 1)
      requires |chain| == |indexes| && forall l :: 0 <= l < |chain| ==> chain[l] == nodes[indexes[l]]
      requires forall l :: 0 <= l < |chain| ==>
                 && (cells[indexes[l]].next[l] == node ==> l <= cells[p].level)
                 && (indexes[l] == 0 || less(cells[indexes[l]].value, cells[p].value))
                 && (l == 0 ==> cells[indexes[l]].next[l] == node)
      modifies `cells, repr
      ensures Rep() && Shape(cells)
      ensures cells == Rewire(old(cells), indexes, DropLinks(nodes, old(cells), indexes, p), p - 1, |indexes|)
    {
      hide Rewire, DropLink, Relink;
      ghost var c0, links := cells, DropLinks(nodes, cells, indexes, p);
      var l := 0;
      RewireNone(c0, indexes, links, p - 1);
      while l < |indexes|
        invariant 0 <= l <= |indexes|
        invariant Rep() && cells == Rewire(c0, indexes, links, p - 1, l)
      {
        DropStep(nodes, c0, indexes, p, l);
        DetachLevel(chain[l], indexes[l], node, p, l);
        l := l + 1;
      }
    }

    ghost function Position(node: Node<T>): (p: nat)
      requires node in nodes
      reads `nodes
      ensures p < |nodes| && nodes[p] == node
    {
      var p :| 0 <= p < |nodes| && nodes[p] == node; p
    }

    lemma {:induction false} NeighboursOf(p: nat)
      requires Valid() && 1 <= p < |nodes| - 1
      ensures nodes[p].prev == nodes[p - 1] && |nodes[p].next| > 0 && nodes[p].next[0] == nodes[p + 1]
    {
      assert LinkAt(nodes, cells, p, 0);
      NextOnLevel0(cells, p, p + cells[p].span[0]);
    }

    /** What the search path of an element tells the patch loop of `remove`, level by level. */
    lemma {:induction false} DetachFacts(indexes: seq<nat>, p: nat, l: nat)
      requires Valid() && 1 <= p < |nodes| - 1 && IsPath(cells, indexes, p - 1, numLevels)
      requires PathFits(cells, indexes, p - 1)
      requires l < numLevels
      ensures cells[indexes[l]].next[l] == nodes[p] ==> l <= cells[p].level
      ensures indexes[l] == 0 || less(cells[indexes[l]].value, cells[p].value)
      ensures l == 0 ==> cells[indexes[l]].next[l] == nodes[p]
      ensures Bridges(nodes, cells, indexes[l], DropLink(nodes, cells, indexes[l], p, l), p, p, l)
    {
      hide Inv, Rep, LinkAt, Linked, IsPrev, IsPath, PathFits, Distinct, DropLink, Bridges;
      DetachReads(indexes, p, l);
      DropLinkReaches(nodes, cells, indexes[l], p, l);
    }

    lemma {:induction false} DetachReads(indexes: seq<nat>, p: nat, l: nat)
      requires Valid() && 1 <= p < |nodes| - 1 && IsPath(cells, indexes, p - 1, numLevels) && l < numLevels
      ensures |indexes| == numLevels && |nodes| == |cells| && Shape(cells) && Distinct(nodes)
      ensures IsPrev(cells, indexes[l], p - 1, l) && indexes[l] < p && l <= cells[indexes[l]].level
      ensures LinkAt(nodes, cells, indexes[l], l)
      ensures l <= cells[p].level ==> LinkAt(nodes, cells, p, l)
      ensures indexes[l] == 0 || less(cells[indexes[l]].value, cells[p].value)
      ensures cells[p].level >= 0 && l == 0 ==> l <= cells[p].level
    {
      hide LinkAt, Levels, BackLinked, StrictWeakOrder;
      var from := indexes[l];
      assert IsPrev(cells, from, p - 1, l) && LinkAt(nodes, cells, from, l);
      assert l <= cells[p].level ==> LinkAt(nodes, cells, p, l);
      if from > 0 {
        assert less(Values(cells)[from - 1], Values(cells)[p - 1]);
      }
    }

    lemma {:induction false} DetachPre(indexes: seq<nat>, p: nat)
      requires Valid() && 1 <= p < |nodes| - 1 && IsPath(cells, indexes, p - 1, numLevels)
      ensures |indexes| == numLevels && Shape(cells) && |nodes| == |cells| && head == nodes[0]
      ensures PathFits(cells, indexes, p - 1)
      ensures forall l :: 0 <= l < numLevels ==>
                && (cells[indexes[l]].next[l] == nodes[p] ==> l <= cells[p].level)
                && (indexes[l] == 0 || less(cells[indexes[l]].value, cells[p].value))
                && (l == 0 ==> cells[indexes[l]].next[l] == nodes[p])
      ensures CutLinks(nodes, cells, indexes, DropLinks(nodes, cells, indexes, p), p, p)
    {
      hide Inv, Rep, LinkAt, Linked, IsPath, PathFits, DropLink, Bridges, IsPrev;
      PathFacts(indexes, p - 1);
      SentinelFacts();
      forall l | 0 <= l < numLevels
        ensures cells[indexes[l]].next[l] == nodes[p] ==> l <= cells[p].level
        ensures indexes[l] == 0 || less(cells[indexes[l]].value, cells[p].value)
        ensures l == 0 ==> cells[indexes[l]].next[l] == nodes[p]
        ensures Bridges(nodes, cells, indexes[l], DropLink(nodes, cells, indexes[l], p, l), p, p, l)
      {
        DetachFacts(indexes, p, l);
      }
    }

    /** Ghost bookkeeping: the positions `a .. b` leave the order. */
    ghost method Leave(a: nat, b: nat)
      requires Rep() && Shape(cells) && 1 <= a <= b < |nodes| - 1
      modifies `cells, `nodes
      ensures Rep() && cells == Cut(old(cells), a, b) && nodes == Cut(old(nodes), a, b)
      ensures nodes[0] == old(nodes)[0] && nodes[|nodes| - 1] == old(nodes)[|old(nodes)| - 1]
    {
      cells, nodes := Cut(cells, a, b), Cut(nodes, a, b);
    }

    method Remove(node: Node<T>)
      requires Valid() && node in nodes && node != head && node != tail
      modifies this, repr
      ensures Valid() && repr == old(repr) && levels == old(levels)
      ensures var p := old(Position(node));
              nodes == Cut(old(nodes), p, p) && Contents() == Cut(old(Contents()), p - 1, p - 1)
    {
      hide Inv, Rep, Shape, IsPath, PathFits, CutLinks, Rewire, Back, Cut, DropLinks, Bridges, LinkAt, Linked;
      ghost var p := Position(node);
      InnerPosition(p);
      NeighboursOf(p);
      var chain, indexes, index := FindChainTo(node, p);
      DetachPre(indexes, p);
      var after, before := node.next[0], node.prev;
      Detach(chain, indexes, node, p);
      SetPrev(p + 1, after, before);
      Leave(p, p);
      itemCount := itemCount - 1;
      RemovalKeepsInv(less, numLevels, levels, old(nodes), old(cells), indexes,
          DropLinks(old(nodes), old(cells), indexes, p), p, p);
    }

    lemma {:induction false} InnerPosition(p: nat)
      requires Valid() && p < |nodes| && nodes[p] != head && nodes[p] != tail
      ensures 1 <= p < |nodes| - 1 && |nodes| == |cells| && Shape(cells) && 1 <= numLevels
      ensures itemCount == |nodes| - 2 && nodes[p + 1] in repr
    {
    }

    /** One round of the patch loop of `remove_between`. */
    method BridgeLevel(chain: Node<T>, ghost from: nat, lastChain: Node<T>, ghost to: nat, last: Node<T>, ghost b: nat,
            l: nat, lastLevel: nat, lastIndex: nat, firstIndex: nat, reduction: nat)
      requires Rep() && Shape(cells) && from <= to <= b < |nodes| && chain == nodes[from] && lastChain == nodes[to]
      requires last == nodes[b]
      requires l <= cells[from].level && l <= cells[to].level && lastLevel == cells[b].level
      requires (l <= lastLevel <==> to == b)
      requires lastIndex == to && firstIndex == from
      modifies `cells, chain
      ensures Rep() && Shape(cells)
      ensures var d := BridgeLink(old(cells), from, to, b, l, reduction);
              cells == Relink(old(cells), from, l, d.next, d.span)
    {
      var next := if l <= lastLevel then last.next[l] else lastChain.next[l];
      SetLink(from, chain, l, next, lastIndex + lastChain.span[l] - firstIndex - reduction);
    }

    /** The patch loop of `remove_between`. */
    method Bridge(chain: seq<Node<T>>, indexes: seq<nat>, lastChain: seq<Node<T>>, lastIndexes: seq<nat>, last: Node<T>,
            lastLevel: nat, reduction: nat, ghost a: nat, ghost b: nat)
      requires Rep() && BridgePaths(cells, indexes, lastIndexes, a, b) && last == nodes[b]
      requires lastLevel == cells[b].level
      requires |chain| == |lastChain| == |indexes| && reduction == b + 1 - a
      requires forall l :: 0 <= l < |chain| ==> chain[l] == nodes[indexes[l]] && lastChain[l] == nodes[lastIndexes[l]]
      modifies `cells, repr
      ensures Rep() && Shape(cells)
      ensures cells
          == Rewire(old(cells), indexes, BridgeLinks(old(cells), indexes, lastIndexes, a, b), a - 1, |indexes|)
    {
      hide Rewire, BridgeLink, Relink;
      ghost var c0, links := cells, BridgeLinks(cells, indexes, lastIndexes, a, b);
      var l := 0;
      RewireNone(c0, indexes, links, a - 1);
      while l < |indexes|
        invariant 0 <= l <= |indexes|
        invariant Rep() && cells == Rewire(c0, indexes, links, a - 1, l)
      {
        BridgeStep(c0, indexes, lastIndexes, a, b, l);
        BridgeLevel(chain[l], indexes[l], lastChain[l], lastIndexes[l], last, b, l, lastLevel, lastIndexes[l],
            indexes[l], reduction);
        l := l + 1;
      }
    }

    /** The highest level on which the last search path still stands on the last node: its own level. */
    method LevelOfLast(lastChain: seq<Node<T>>, ghost lastIndexes: seq<nat>, last: Node<T>, ghost b: nat)
            returns (lastLevel: nat)
      requires Rep() && b < |nodes| && last == nodes[b] && |lastChain| == |lastIndexes| && cells[b].level < |lastChain|
      requires forall l :: 0 <= l < |lastChain| ==>
                 lastIndexes[l] <= b && lastChain[l] == nodes[lastIndexes[l]]
                     && (l <= cells[b].level <==> lastIndexes[l] == b)
      ensures lastLevel == cells[b].level
    {
      lastLevel := 0;
      while lastLevel + 1 < |lastChain| && lastChain[lastLevel + 1] == last
        invariant 0 <= lastLevel <= cells[b].level
      {
        lastLevel := lastLevel + 1;
      }
    }

    lemma {:induction false} StepInside(a: nat, b: nat, i: nat)
      requires Rep() && NextsInside(nodes, cells, a, b) && a <= i <= b < |nodes| - 1
      ensures nodes[i] != nodes[b + 1] && |nodes[i].next| > 0 && nodes[i].next[0] == nodes[i + 1]
    {
    }

    /** The release loop of `remove_between`: walk the removed range and count it off. */
    method Release(first: Node<T>, onePastEnd: Node<T>, ghost a: nat, ghost b: nat)
      requires Rep() && Shape(cells) && 1 <= a <= b < |nodes| - 1 && first == nodes[a] && onePastEnd == nodes[b + 1]
      requires NextsInside(nodes, cells, a, b)
      requires itemCount >= b + 1 - a
      modifies `itemCount
      ensures itemCount == old(itemCount) - (b + 1 - a)
    {
      hide Rep, NextsInside, Shape;
      var node: Node<T> := first;
      ghost var i := a;
      StepInside(a, b, i);
      while node != onePastEnd
        invariant a <= i <= b + 1 && node == nodes[i] && itemCount == old(itemCount) - (i - a)
        invariant node == onePastEnd ==> i == b + 1
        decreases b + 1 - i
      {
        StepInside(a, b, i);
        node := node.next[0];
        itemCount := itemCount - 1;
        i := i + 1;
        if i <= b {
          StepInside(a, b, i);
        }
      }
    }

    lemma {:induction false} BridgeFacts(indexes: seq<nat>, lastIndexes: seq<nat>, a: nat, b: nat)
      requires Valid() && 1 <= a <= b < |nodes| - 1
      requires IsPath(cells, indexes, a - 1, numLevels) && IsPath(cells, lastIndexes, b, numLevels)
      ensures |indexes| == |lastIndexes| == numLevels && cells[b].level < numLevels
      ensures BridgePaths(cells, indexes, lastIndexes, a, b)
      ensures CutLinks(nodes, cells, indexes, BridgeLinks(cells, indexes, lastIndexes, a, b), a, b)
      ensures NextsInside(nodes,
          Rewire(cells, indexes, BridgeLinks(cells, indexes, lastIndexes, a, b), a - 1, |indexes|), a, b)
    {
      PathFitsHere(cells, indexes, a - 1);
      BridgePathsHere(nodes, cells, indexes, lastIndexes, a, b);
      RangeKeepsNexts(nodes, cells, indexes, BridgeLinks(cells, indexes, lastIndexes, a, b), a, b);
    }

    /** The writing half of `remove_between`: both search paths of the range are known. */
    method Excise(first: Node<T>, last: Node<T>, prev: Node?<T>, onePastEnd: Node<T>, chain: seq<Node<T>>,
            indexes: seq<nat>, lastChain: seq<Node<T>>, lastIndexes: seq<nat>, reduction: nat, ghost a: nat,
                ghost b: nat)
      requires Valid() && 1 <= a <= b < |nodes| - 1 && reduction == b + 1 - a
      requires first == nodes[a] && last == nodes[b] && prev == nodes[a - 1] && onePastEnd == nodes[b + 1]
      requires IsPath(cells, indexes, a - 1, numLevels) && IsPath(cells, lastIndexes, b, numLevels)
      requires |chain| == |lastChain| == numLevels
      requires forall l :: 0 <= l < numLevels ==> chain[l] == nodes[indexes[l]] && lastChain[l] == nodes[lastIndexes[l]]
      modifies `nodes, `cells, `itemCount, repr
      ensures Valid() && nodes == Cut(old(nodes), a, b) && Contents() == Cut(old(Contents()), a - 1, b - 1)
    {
      hide Inv, Rep, IsPath, PathFits, CutLinks, Rewire, Back, Cut, BridgeLinks, BridgeLink, Bridges, LinkAt, Linked;
      EndPosition(a, b);
      BridgeFacts(indexes, lastIndexes, a, b);
      var lastLevel := LevelOfLast(lastChain, lastIndexes, last, b);
      Bridge(chain, indexes, lastChain, lastIndexes, last, lastLevel, reduction, a, b);
      Release(first, onePastEnd, a, b);
      SetPrev(b + 1, onePastEnd, prev);
      Leave(a, b);
      RemovalKeepsInv(less, numLevels, levels, old(nodes), old(cells), indexes,
          BridgeLinks(old(cells), indexes, lastIndexes, a, b), a, b);
    }

    lemma {:induction false} EndPosition(a: nat, b: nat)
      requires Valid() && 1 <= a <= b < |nodes| - 1
      ensures |nodes| == |cells| && Shape(cells) && itemCount == |nodes| - 2 && nodes[b + 1] in repr
      ensures |Contents()| == |nodes| - 2 && Contents() == Values(cells)
    {
    }

    method RemoveBetween(first: Node<T>, last: Node<T>)
      requires Valid() && first in nodes && last in nodes
      requires head != first && head != last && first != tail && last != tail && Position(first) <= Position(last)
      modifies this, repr
      ensures Valid() && repr == old(repr) && levels == old(levels)
      ensures var a, b := old(Position(first)), old(Position(last));
              nodes == Cut(old(nodes), a, b) && Contents() == Cut(old(Contents()), a - 1, b - 1)
    {
      hide Inv, Rep, IsPath, PathFits, Cut, LinkAt, Linked, Contents;
      ghost var a, b := Position(first), Position(last);
      InnerPosition(a);
      InnerPosition(b);
      NeighboursOf(a);
      NeighboursOf(b);
      var prev, onePastEnd := first.prev, last.next[0];
      var chain, indexes, index := FindChainTo(first, a);
      var lastChain, lastIndexes, lastIndex := FindChainTo(onePastEnd, b + 1);
      Excise(first, last, prev, onePastEnd, chain, indexes, lastChain, lastIndexes, lastIndex - index, a, b);
    }

    // ---------- lookup and removal by value and by index ----------

    /** The inner loop of `find`: along one level while the next element is not greater. */
    method AdvanceOver(value: T, l: nat, from: Node<T>, ghost p: nat) returns (node: Node<T>, ghost q: nat)
      requires Rep() && Walkable() && l < numLevels
      requires p < |nodes| - 1 && from == nodes[p] && cells[p].level >= l && NoneAbove(less, cells, value, p)
      ensures p <= q < |nodes| - 1 && node == nodes[q] && cells[q].level >= l && NoneAbove(less, cells, value, q)
      ensures l == 0 ==> IsFloor(less, cells, value, q)
    {
      hide Rep, Linked, Sorted, StrictWeakOrder, NoneAbove, IsFloor;
      node, q := from, p;
      var next, span := Follow(q, node, l);
      while next != tail && !less(value, next.value)
        invariant p <= q < |nodes| - 1 && node == nodes[q] && cells[q].level >= l && NoneAbove(less, cells, value, q)
        invariant LinkAt(nodes, cells, q, l) && span == cells[q].span[l]
        invariant next == tail <==> q + span == |nodes| - 1
        invariant next == nodes[q + span] && next.value == cells[q + span].value
        decreases |nodes| - q
      {
        StepNotAbove(less, cells, value, q + span);
        node, q := next, q + span;
        next, span := Follow(q, node, l);
      }
      if l == 0 {
        NextOnLevel0(cells, q, q + span);
        FloorAtStop(less, cells, value, q);
      }
    }

    /** The last node that is not greater than the value, or the head. */
    method Find(value: T) returns (node: Node<T>, ghost p: nat)
      requires Valid()
      ensures p < |nodes| - 1 && node == nodes[p] && IsFloor(less, cells, value, p)
    {
      hide Rep, Walkable, Inv, NoneAbove, IsFloor;
      ValidIsWalkable();
      var l := levels;
      node, p := head, 0;
      FloorOfHead(value);
      while l > 0
        invariant 0 <= l <= levels && p < |nodes| - 1 && node == nodes[p] && cells[p].level >= l
        invariant NoneAbove(less, cells, value, p)
        invariant l == 0 && levels > 0 ==> IsFloor(less, cells, value, p)
      {
        l := l - 1;
        node, p := AdvanceOver(value, l, node, p);
      }
    }

    lemma {:induction false} FloorOfHead(value: T)
      requires Valid()
      ensures |nodes| == |cells| >= 2 && NoneAbove(less, cells, value, 0)
      ensures levels == 0 ==> IsFloor(less, cells, value, 0)
    {
      if |cells| > 2 {
        assert 0 <= cells[1].level < levels;
      }
    }

    lemma {:induction false} FloorFacts(node: Node<T>, p: nat, value: T)
      requires Valid() && p < |nodes| - 1 && node == nodes[p] && IsFloor(less, cells, value, p)
      ensures node in nodes && node != tail && (node == head <==> p == 0) && Position(node) == p
      ensures node != head && Equivalent(less, node.value, value) <==> Holds(less, Contents(), value)
      ensures Holds(less, Contents(), value) ==>
          p == Rank(less, Contents(), value) + 1 && Rank(less, Contents(), value) < |Contents()|
    {
      FloorDecides(less, cells, value, p);
      assert node == nodes[p] && node.value == cells[p].value;
    }

    /** Membership, as `find` and `count` of the public class decide it. */
    method Contains(value: T) returns (found: bool)
      requires Valid()
      ensures found <==> Holds(less, Contents(), value)
    {
      hide Rep, Inv, IsFloor, Holds, Rank, Contents;
      ghost var p;
      var node;
      node, p := Find(value);
      FloorFacts(node, p, value);
      found := node != head && Equivalent(less, node.value, value);
    }

    method Erase(value: T) returns (erased: nat)
      requires Valid()
      modifies this, repr
      ensures Valid() && repr == old(repr) && levels == old(levels)
      ensures erased == if Holds(less, old(Contents()), value) then 1 else 0
      ensures Contents() == Erased(less, old(Contents()), value)
      ensures if erased == 0 then nodes == old(nodes)
              else exists p: nat :: p < |old(nodes)| && nodes == Cut(old(nodes), p, p)
    {
      hide Rep, Inv, IsFloor, Holds, Rank, Contents, Cut;
      ghost var p;
      var node;
      node, p := Find(value);
      FloorFacts(node, p, value);
      erased := 0;
      if node != head && Equivalent(less, node.value, value) {
        Remove(node);
        erased := 1;
      }
    }

    method EraseAt(index: nat)
      requires Valid() && index < itemCount
      modifies this, repr
      ensures Valid() && repr == old(repr) && levels == old(levels)
      ensures index < |old(Contents())| && Contents() == Cut(old(Contents()), index, index)
      ensures index + 1 < |old(nodes)| && nodes == Cut(old(nodes), index + 1, index + 1)
    {
      hide Inv, Cut, Rep;
      var node := At(index);
      PlaceOf(node, index + 1);
      Remove(node);
    }

    lemma {:induction false} PlaceOf(node: Node<T>, p: nat)
      requires Valid() && 1 <= p < |nodes| - 1 && node == nodes[p]
      ensures node in nodes && node != head && node != tail && Position(node) == p && p - 1 < |Contents()|
    {
      assert node == nodes[p];
    }

    // ---------- remove_all ----------

    /** The release loop of `remove_all`: the level-0 chain passes every element once. */
    method ReleaseAll() returns (released: nat)
      requires Valid()
      ensures released == itemCount
    {
      hide Inv, Rep, Linked, LinkAt, Sorted;
      ValidIsWalkable();
      released := 0;
      var node, span := Follow(0, head, 0);
      NextOnLevel0(cells, 0, span);
      while node != tail
        invariant released + 1 < |nodes| && node == nodes[released + 1]
        invariant node == tail <==> released + 1 == |nodes| - 1
        decreases |nodes| - released
      {
        var next, distance := Follow(released + 1, node, 0);
        NextOnLevel0(cells, released + 1, released + 1 + distance);
        node, released := next, released + 1;
      }
    }

    /** The relinking loop of `remove_all`. */
    method ClearLinks()
      requires Rep() && Shape(cells) && |cells| > 0 && head == nodes[0] && cells[0].level == numLevels
      modifies `cells, repr
      ensures Rep() && Shape(cells) && cells == Cleared(old(cells), tail, numLevels)
    {
      hide Relink;
      ghost var c0 := cells;
      var l := 0;
      while l < numLevels
        invariant 0 <= l <= numLevels && Rep() && Shape(cells) && cells == Cleared(c0, tail, l)
      {
        SetLink(0, head, l, tail, 1);
        l := l + 1;
      }
    }

    /** Ghost bookkeeping: only the sentinels are left. */
    ghost method KeepEnds()
      requires Rep() && |nodes| >= 2
      modifies `cells, `nodes
      ensures Rep() && nodes == Ends(old(nodes)) && cells == Ends(old(cells))
    {
      cells, nodes := Ends(cells), Ends(nodes);
    }

    method RemoveAll()
      requires Valid()
      modifies this, repr
      ensures Valid() && repr == old(repr) && levels == old(levels) && Contents() == []
    {
      hide Inv, Rep, Linked, LinkAt, Cleared, Back, Ends;
      SentinelFacts();
      var released := ReleaseAll();
      ClearLinks();
      SetPrev(|nodes| - 1, tail, head);
      KeepEnds();
      itemCount := 0;
      ClearedKeepsInv(less, numLevels, levels, old(nodes), old(cells));
    }

    lemma {:induction false} SentinelFacts()
      requires Valid()
      ensures |nodes| == |cells| >= 2 && Shape(cells) && cells[0].level == numLevels
      ensures head == nodes[0] && tail == nodes[|nodes| - 1] && tail in repr && head in repr
    {
    }
  }
}
