/** The pure side of the indexable skip list: what its nodes hold, in level-0 order, and how
    patching one link per level changes the whole link structure. */
module SpanLinks {
  import opened Sequences

  // Position 0 is the head sentinel and the last position the tail sentinel.

  class Node<T> {
    const value: T
    const level: nat
    var prev: Node?<T>
    var next: seq<Node?<T>>
    var span: seq<int>

    constructor (value: T, level: nat)
      ensures this.value == value && this.level == level && prev == null
      ensures |next| == level + 1 && |span| == level + 1
      ensures forall l :: 0 <= l <= level ==> next[l] == null && span[l] == 1
    {
      this.value, this.level, prev := value, level, null;
      next := seq(level + 1, _ => null);
      span := seq(level + 1, _ => 1);
    }
  }

  /** What one node's fields hold. */
  datatype Cell<T> = Cell(value: T, level: nat, prev: Node?<T>, next: seq<Node?<T>>, span: seq<int>)

  /** `j` is the first position after `i` whose node reaches level `l`. */
  ghost predicate IsNext<T>(cells: seq<Cell<T>>, i: int, j: int, l: nat) {
    && 0 <= i < j < |cells|
    && cells[j].level >= l
    && forall k :: i < k < j ==> cells[k].level < l
  }

  /** `i` is the last position up to `r` whose node reaches level `l`. */
  ghost predicate IsPrev<T>(cells: seq<Cell<T>>, i: int, r: int, l: nat) {
    && 0 <= i <= r < |cells|
    && cells[i].level >= l
    && forall k :: i < k <= r ==> cells[k].level < l
  }

  ghost predicate Shape<T>(cells: seq<Cell<T>>) {
    forall i :: 0 <= i < |cells| ==> |cells[i].next| == |cells[i].span| == cells[i].level + 1
  }

  /** The level-`l` link of position `i` points to the next node of that level, and its span is
      the level-0 distance to it. */
  ghost predicate LinkAt<T>(nodes: seq<Node<T>>, cells: seq<Cell<T>>, i: int, l: nat)
    requires |nodes| == |cells| && Shape(cells)
    requires 0 <= i < |cells| && l <= cells[i].level
  {
    var j := i + cells[i].span[l];
    IsNext(cells, i, j, l) && cells[i].next[l] == nodes[j]
  }

  ghost predicate Linked<T>(nodes: seq<Node<T>>, cells: seq<Cell<T>>, numLevels: nat)
    requires |nodes| == |cells| && Shape(cells)
  {
    forall i, l :: 0 <= i < |cells| - 1 && 0 <= l <= cells[i].level && l < numLevels ==> LinkAt(nodes, cells, i, l)
  }

  /** The two sentinels reach every level, all other nodes stay below `numLevels`. */
  ghost predicate Levels<T>(cells: seq<Cell<T>>, numLevels: nat) {
    && |cells| >= 2
    && cells[0].level == cells[|cells| - 1].level == numLevels
    && forall i :: 0 < i < |cells| - 1 ==> cells[i].level < numLevels
  }

  ghost predicate BackLinked<T>(nodes: seq<Node<T>>, cells: seq<Cell<T>>)
    requires |nodes| == |cells|
  {
    forall i :: 0 < i < |cells| ==> cells[i].prev == nodes[i - 1]
  }

  /** The search path for rank `r`: the last position up to `r` on every level. */
  ghost predicate IsPath<T>(cells: seq<Cell<T>>, path: seq<nat>, r: int, numLevels: nat) {
    && |path| == numLevels
    && forall l :: 0 <= l < numLevels ==> IsPrev(cells, path[l], r, l)
  }

  /** One link write, as a change of the node contents. */
  function Relink<T>(c: seq<Cell<T>>, i: nat, l: nat, next: Node?<T>, span: int): (c1: seq<Cell<T>>)
    requires i < |c| && Shape(c) && l <= c[i].level
    ensures Shape(c1) && |c1| == |c|
  {
    c[i := c[i].(next := c[i].next[l := next], span := c[i].span[l := span])]
  }

  ghost predicate SameNodes<T>(c0: seq<Cell<T>>, c: seq<Cell<T>>) {
    && |c| == |c0|
    && forall i :: 0 <= i < |c0| ==> c[i].value == c0[i].value && c[i].level == c0[i].level && c[i].prev == c0[i].prev
  }

  ghost predicate SameLink<T>(c0: seq<Cell<T>>, c: seq<Cell<T>>, i: int, m: nat)
    requires 0 <= i < |c0| && i < |c| && Shape(c0) && Shape(c) && m <= c0[i].level && m <= c[i].level
  {
    c[i].next[m] == c0[i].next[m] && c[i].span[m] == c0[i].span[m]
  }

  /** The path position of every level reaches that level and is not past `r`. */
  ghost predicate PathFits<T>(c: seq<Cell<T>>, path: seq<nat>, r: nat) {
    forall m :: 0 <= m < |path| ==> path[m] <= r < |c| && m <= c[path[m]].level
  }

  lemma {:induction false} NextOnLevel0<T>(cells: seq<Cell<T>>, i: int, j: int)
    requires IsNext(cells, i, j, 0)
    ensures j == i + 1
  {
    assert cells[i + 1].level >= 0;
  }

  /** The link out of a path position crosses the rank; every other link stays on its side. */
  lemma {:induction false} LinkSide<T>(cells: seq<Cell<T>>, i: int, j: int, l: nat, p: int, r: int)
    requires IsNext(cells, i, j, l) && cells[i].level >= l && IsPrev(cells, p, r, l)
    ensures i == p ==> j > r
    ensures i < p ==> j <= p
    ensures p < i ==> r < i
  {
    assert cells[i].level >= l && cells[j].level >= l && cells[p].level >= l;
  }

  // ---------- inserting one node after position r ----------

  /** `c` has one more node than `c0`, right after position `r`. */
  ghost predicate Widened<T>(c0: seq<Cell<T>>, c: seq<Cell<T>>, r: nat) {
    && r < |c0| && |c| == |c0| + 1
    && forall k :: 0 <= k < |c| && k != r + 1 ==>
         c[k].level == c0[Before(r, k)].level && c[k].value == c0[Before(r, k)].value
  }

  lemma {:induction false} NextAfterSplice<T>(c0: seq<Cell<T>>, c: seq<Cell<T>>, r: nat, i: int, j: int, l: nat)
    requires Widened(c0, c, r) && IsNext(c0, i, j, l)
    ensures i > r ==> IsNext(c, i + 1, j + 1, l)
    ensures j <= r ==> IsNext(c, i, j, l)
    ensures i <= r < j && c[r + 1].level < l ==> IsNext(c, i, j + 1, l)
    ensures i <= r < j && c[r + 1].level >= l ==> IsNext(c, i, r + 1, l) && IsNext(c, r + 1, j + 1, l)
  {
  }

  /** What `insert` writes on level `l`, the new node `n` being at position `r + 1`: up to its
      own level the new node takes over the link that crosses it; above it that link's span grows. */
  ghost function LinkStep<T>(c: seq<Cell<T>>, path: seq<nat>, n: Node<T>, r: nat, l: nat): (c1: seq<Cell<T>>)
    requires Shape(c) && r + 1 < |c| && l < |path| && path[l] <= r && l <= c[path[l]].level
    ensures Shape(c1) && SameNodes(c, c1)
  {
    var p := path[l];
    var next, span := c[p].next[l], c[p].span[l];
    if l > c[r + 1].level then Relink(c, p, l, next, span + 1)
    else Relink(Relink(c, r + 1, l, next, span - (r - p)), p, l, n, r + 1 - p)
  }

  /** The levels below `l` patched one after the other. */
  ghost function LinkSteps<T>(c: seq<Cell<T>>, path: seq<nat>, n: Node<T>, r: nat, l: nat): (c1: seq<Cell<T>>)
    requires Shape(c) && r + 1 < |c| && l <= |path| && PathFits(c, path, r)
    ensures Shape(c1) && SameNodes(c, c1)
  {
    if l == 0 then c else LinkStep(LinkSteps(c, path, n, r, l - 1), path, n, r, l - 1)
  }

  lemma {:induction false} LinkStepElsewhere<T>(c: seq<Cell<T>>, path: seq<nat>, n: Node<T>, r: nat, l: nat, i: nat,
          m: nat)
    requires Shape(c) && r + 1 < |c| && l < |path| && path[l] <= r && l <= c[path[l]].level
    requires i < |c| && m <= c[i].level && (m != l || (i != path[l] && (i != r + 1 || c[r + 1].level < l)))
    ensures SameLink(c, LinkStep(c, path, n, r, l), i, m)
  {
  }

  /** A link that is neither the path's nor the new node's is not written at all. */
  lemma {:induction false} LinkStepsElsewhere<T>(c: seq<Cell<T>>, path: seq<nat>, n: Node<T>, r: nat, l: nat, i: nat,
          m: nat)
    requires Shape(c) && r + 1 < |c| && l <= |path| && PathFits(c, path, r)
    requires i < |c| && m <= c[i].level && (m >= l || (i != path[m] && i != r + 1))
    ensures SameLink(c, LinkSteps(c, path, n, r, l), i, m)
  {
    hide LinkStep;
    if l > 0 {
      LinkStepsElsewhere(c, path, n, r, l - 1, i, m);
      LinkStepElsewhere(LinkSteps(c, path, n, r, l - 1), path, n, r, l - 1, i, m);
    }
  }

  ghost predicate LinkWritten<T>(c: seq<Cell<T>>, c1: seq<Cell<T>>, path: seq<nat>, n: Node<T>, r: nat, m: nat)
    requires Shape(c) && r + 1 < |c| && m < |path| && path[m] <= r && m <= c[path[m]].level
    requires Shape(c1) && SameNodes(c, c1)
  {
    var p := path[m];
    if m > c[r + 1].level then c1[p].next[m] == c[p].next[m] && c1[p].span[m] == c[p].span[m] + 1
    else
      && c1[p].next[m] == n && c1[p].span[m] == r + 1 - p
      && c1[r + 1].next[m] == c[p].next[m] && c1[r + 1].span[m] == c[p].span[m] - (r - p)
  }

  lemma {:induction false} LinkStepWrites<T>(c: seq<Cell<T>>, path: seq<nat>, n: Node<T>, r: nat, l: nat)
    requires Shape(c) && r + 1 < |c| && l < |path| && path[l] <= r && l <= c[path[l]].level
    ensures LinkWritten(c, LinkStep(c, path, n, r, l), path, n, r, l)
  {
  }

  ghost predicate SameAtPath<T>(c: seq<Cell<T>>, d: seq<Cell<T>>, path: seq<nat>, r: nat, m: nat)
    requires Shape(c) && Shape(d) && SameNodes(c, d) && r + 1 < |c| && m < |path| && path[m] <= r
    requires m <= c[path[m]].level
  {
    SameLink(c, d, path[m], m) && (m <= c[r + 1].level ==> SameLink(c, d, r + 1, m))
  }

  /** A level's write is what it is whatever the other levels' turns did before and after. */
  lemma {:induction false} WrittenOnce<T>(c: seq<Cell<T>>, d: seq<Cell<T>>, e: seq<Cell<T>>, f: seq<Cell<T>>,
          path: seq<nat>, n: Node<T>, r: nat, m: nat)
    requires Shape(c) && Shape(d) && Shape(e) && Shape(f) && SameNodes(c, d) && SameNodes(d, e) && SameNodes(e, f)
    requires r + 1 < |c| && m < |path| && path[m] <= r && m <= c[path[m]].level
    requires SameAtPath(c, d, path, r, m) && LinkWritten(d, e, path, n, r, m) && SameAtPath(e, f, path, r, m)
    ensures LinkWritten(c, f, path, n, r, m)
  {
  }

  lemma {:induction false} SameIsWritten<T>(c: seq<Cell<T>>, path: seq<nat>, r: nat, m: nat)
    requires Shape(c) && r + 1 < |c| && m < |path| && path[m] <= r && m <= c[path[m]].level
    ensures SameAtPath(c, c, path, r, m)
  {
  }

  lemma {:induction false} LinkStepKeeps<T>(c: seq<Cell<T>>, path: seq<nat>, n: Node<T>, r: nat, l: nat, m: nat)
    requires Shape(c) && r + 1 < |c| && l < |path| && path[l] <= r && l <= c[path[l]].level
    requires m < |path| && path[m] <= r && m <= c[path[m]].level && m != l
    ensures SameAtPath(c, LinkStep(c, path, n, r, l), path, r, m)
  {
    LinkStepElsewhere(c, path, n, r, l, path[m], m);
    if m <= c[r + 1].level {
      LinkStepElsewhere(c, path, n, r, l, r + 1, m);
    }
  }

  lemma {:induction false} LinkStepsKeep<T>(c: seq<Cell<T>>, path: seq<nat>, n: Node<T>, r: nat, l: nat)
    requires Shape(c) && r + 1 < |c| && l < |path| && PathFits(c, path, r)
    ensures SameAtPath(c, LinkSteps(c, path, n, r, l), path, r, l)
  {
    LinkStepsElsewhere(c, path, n, r, l, path[l], l);
    if l <= c[r + 1].level {
      LinkStepsElsewhere(c, path, n, r, l, r + 1, l);
    }
  }

  lemma {:induction false} LinkStepsWrite<T>(c: seq<Cell<T>>, path: seq<nat>, n: Node<T>, r: nat, l: nat, m: nat)
    requires Shape(c) && r + 1 < |c| && m < l <= |path| && PathFits(c, path, r)
    ensures LinkWritten(c, LinkSteps(c, path, n, r, l), path, n, r, m)
  {
    hide LinkStep, LinkWritten, SameAtPath;
    var d := LinkSteps(c, path, n, r, l - 1);
    var e := LinkStep(d, path, n, r, l - 1);
    if m < l - 1 {
      LinkStepsWrite(c, path, n, r, l - 1, m);
      LinkStepKeeps(d, path, n, r, l - 1, m);
      SameIsWritten(c, path, r, m);
      WrittenOnce(c, c, d, e, path, n, r, m);
    } else {
      LinkStepsKeep(c, path, n, r, m);
      LinkStepWrites(d, path, n, r, m);
      SameIsWritten(e, path, r, m);
      WrittenOnce(c, d, e, e, path, n, r, m);
    }
  }

  /** The level-0 successor of the new node is the old successor of the node before it. */
  lemma {:induction false} NewNodeNext<T>(nodes: seq<Node<T>>, c0: seq<Cell<T>>, path: seq<nat>, n: Node<T>, r: nat,
          added: Cell<T>)
    requires |nodes| == |c0| && Shape(c0) && r < |c0| - 1 && LinkAt(nodes, c0, r, 0)
    requires |added.next| == |added.span| == added.level + 1 && |path| > 0 && path[0] == r
    requires Shape(Splice(c0, r, added)) && PathFits(Splice(c0, r, added), path, r)
    ensures LinkSteps(Splice(c0, r, added), path, n, r, |path|)[r + 1].next[0] == Splice(nodes, r, n)[r + 2]
  {
    LinkStepsWrite(Splice(c0, r, added), path, n, r, |path|, 0);
    NextOnLevel0(c0, r, r + c0[r].span[0]);
    assert Splice(c0, r, added)[r] == c0[Before(r, r)];
    assert Splice(nodes, r, n)[r + 2] == nodes[Before(r, r + 2)];
  }

  /** The crossing link of level `m` after the splice: through the new node, or over it. */
  lemma {:induction false} SpliceAtPath<T>(nodes: seq<Node<T>>, c0: seq<Cell<T>>, c: seq<Cell<T>>, n: Node<T>, r: nat,
          p: nat, m: nat)
    requires |nodes| == |c0| && Shape(c0) && Shape(c) && Widened(c0, c, r)
    requires IsPrev(c0, p, r, m) && LinkAt(nodes, c0, p, m)
    requires c[p].level == c0[p].level
    requires if m > c[r + 1].level then c[p].next[m] == c0[p].next[m] && c[p].span[m] == c0[p].span[m] + 1
             else && c[p].next[m] == n && c[p].span[m] == r + 1 - p
                  && c[r + 1].next[m] == c0[p].next[m] && c[r + 1].span[m] == c0[p].span[m] - (r - p)
    ensures LinkAt(Splice(nodes, r, n), c, p, m)
    ensures m <= c[r + 1].level ==> LinkAt(Splice(nodes, r, n), c, r + 1, m)
  {
    var q := p + c0[p].span[m];
    LinkSide(c0, p, q, m, p, r);
    NextAfterSplice(c0, c, r, p, q, m);
    assert Splice(nodes, r, n)[q + 1] == nodes[q];
  }

  lemma {:induction false} SpliceElsewhere<T>(nodes: seq<Node<T>>, c0: seq<Cell<T>>, c: seq<Cell<T>>, n: Node<T>,
          r: nat, p: int, i: int, m: nat)
    requires |nodes| == |c0| && Shape(c0) && Shape(c) && Widened(c0, c, r)
    requires 0 <= i < |c0| && m <= c0[i].level && i != p
    requires IsPrev(c0, p, r, m) && LinkAt(nodes, c0, i, m)
    requires var i1 := if i <= r then i else i + 1;
             c[i1].next[m] == c0[i].next[m] && c[i1].span[m] == c0[i].span[m]
    ensures LinkAt(Splice(nodes, r, n), c, if i <= r then i else i + 1, m)
  {
    var j := i + c0[i].span[m];
    LinkSide(c0, i, j, m, p, r);
    NextAfterSplice(c0, c, r, i, j, m);
    assert Splice(nodes, r, n)[if j <= r then j else j + 1] == nodes[j];
  }

  lemma {:induction false} SplicedLevels<T>(c0: seq<Cell<T>>, c: seq<Cell<T>>, r: nat, added: Cell<T>)
    requires r < |c0| && SameNodes(Splice(c0, r, added), c)
    ensures Widened(c0, c, r) && c[r + 1].level == added.level
  {
  }

  /** The patch loop of `insert` leaves every link of the longer list right. */
  lemma {:induction false} SpliceLinked<T>(nodes: seq<Node<T>>, c0: seq<Cell<T>>, path: seq<nat>, n: Node<T>, r: nat,
          added: Cell<T>)
    requires |nodes| == |c0| && Shape(c0) && Linked(nodes, c0, |path|) && r < |c0| - 1
    requires IsPath(c0, path, r, |path|)
    requires |added.next| == |added.span| == added.level + 1
    ensures var base := Splice(c0, r, added);
            Shape(base) && PathFits(base, path, r)
                && Linked(Splice(nodes, r, n), LinkSteps(base, path, n, r, |path|), |path|)
  {
    var base := Splice(c0, r, added);
    PathFitsSpliced(c0, path, r, added);
    var c := LinkSteps(base, path, n, r, |path|);
    SplicedLevels(c0, c, r, added);
    forall i, m | 0 <= i < |c| - 1 && 0 <= m <= c[i].level && m < |path|
      ensures LinkAt(Splice(nodes, r, n), c, i, m)
    {
      SplicedLinkAt(nodes, c0, path, n, r, added, i, m);
    }
  }

  lemma {:induction false} PathFitsSpliced<T>(c0: seq<Cell<T>>, path: seq<nat>, r: nat, added: Cell<T>)
    requires Shape(c0) && r < |c0| && IsPath(c0, path, r, |path|)
    requires |added.next| == |added.span| == added.level + 1
    ensures Shape(Splice(c0, r, added)) && PathFits(Splice(c0, r, added), path, r)
  {
    forall m | 0 <= m < |path| ensures path[m] <= r && m <= Splice(c0, r, added)[path[m]].level {
      assert IsPrev(c0, path[m], r, m);
    }
  }

  lemma {:induction false} PathPositions<T>(c0: seq<Cell<T>>, path: seq<nat>, r: nat)
    requires IsPath(c0, path, r, |path|)
    ensures forall m :: 0 <= m < |path| ==> path[m] <= r < |c0| && m <= c0[path[m]].level
  {
    forall m | 0 <= m < |path| ensures path[m] <= r < |c0| && m <= c0[path[m]].level {
      assert IsPrev(c0, path[m], r, m);
    }
  }

  lemma {:induction false} SplicedLinkAt<T>(nodes: seq<Node<T>>, c0: seq<Cell<T>>, path: seq<nat>, n: Node<T>, r: nat,
          added: Cell<T>, i: nat, m: nat)
    requires |nodes| == |c0| && Shape(c0) && Linked(nodes, c0, |path|) && r < |c0| - 1
    requires IsPath(c0, path, r, |path|)
    requires |added.next| == |added.span| == added.level + 1
    requires Shape(Splice(c0, r, added)) && PathFits(Splice(c0, r, added), path, r)
    requires i < |c0| && m < |path| && m <= LinkSteps(Splice(c0, r, added), path, n, r, |path|)[i].level
    ensures LinkAt(Splice(nodes, r, n), LinkSteps(Splice(c0, r, added), path, n, r, |path|), i, m)
  {
    hide LinkStep, LinkSteps, IsPrev, LinkAt;
    var base := Splice(c0, r, added);
    var c := LinkSteps(base, path, n, r, |path|);
    var p := path[m];
    SplicedLevels(c0, c, r, added);
    assert IsPrev(c0, p, r, m);
    assert base[p] == c0[p];
    if i == r + 1 || i == p {
      LinkStepsWrite(base, path, n, r, |path|, m);
      PathPositions(c0, path, r);
      assert LinkAt(nodes, c0, p, m);
      SpliceAtPath(nodes, c0, c, n, r, p, m);
    } else {
      var i0 := Before(r, i);
      LinkStepsElsewhere(base, path, n, r, |path|, i, m);
      assert base[i] == c0[i0] && LinkAt(nodes, c0, i0, m);
      SpliceElsewhere(nodes, c0, c, n, r, p, i0, m);
    }
  }

  // ---------- removing the positions a .. b ----------

  /** The new link of one level after a removal: next pointer, span, and the position they reach. */
  datatype Detour<T> = Detour(next: Node?<T>, span: int, far: int)

  /** The path links rewritten to `links` on the levels below `l`. */
  ghost function Rewire<T>(c: seq<Cell<T>>, path: seq<nat>, links: seq<Detour<T>>, r: nat, l: nat): (c1: seq<Cell<T>>)
    requires Shape(c) && l <= |links| && l <= |path| && PathFits(c, path, r)
    ensures Shape(c1) && SameNodes(c, c1)
  {
    if l == 0 then c
        else Relink(Rewire(c, path, links, r, l - 1), path[l - 1], l - 1, links[l - 1].next, links[l - 1].span)
  }

  lemma {:induction false} RewireNone<T>(c: seq<Cell<T>>, path: seq<nat>, links: seq<Detour<T>>, r: nat)
    requires Shape(c) && PathFits(c, path, r)
    ensures Rewire(c, path, links, r, 0) == c
  {
  }

  lemma {:induction false} RewireMore<T>(c: seq<Cell<T>>, path: seq<nat>, links: seq<Detour<T>>, r: nat, l: nat)
    requires Shape(c) && PathFits(c, path, r) && l < |path| && l < |links|
    ensures var d := Rewire(c, path, links, r, l);
            l <= d[path[l]].level
                && Relink(d, path[l], l, links[l].next, links[l].span) == Rewire(c, path, links, r, l + 1)
  {
  }

  lemma {:induction false} RewireAt<T>(c: seq<Cell<T>>, path: seq<nat>, links: seq<Detour<T>>, r: nat, l: nat, i: nat,
          m: nat)
    requires Shape(c) && l <= |links| && l <= |path| && PathFits(c, path, r)
    requires i < |c| && m <= c[i].level
    ensures var c1 := Rewire(c, path, links, r, l);
            if m < l && i == path[m]
            then c1[i].next[m] == links[m].next && c1[i].span[m] == links[m].span
            else SameLink(c, c1, i, m)
  {
    if l > 0 {
      RewireAt(c, path, links, r, l - 1, i, m);
    }
  }

  /** The links that leave the range `a .. b`: on level `m` the path position now bridges
      the range. */
  ghost predicate CutLinks<T>(nodes: seq<Node<T>>, c0: seq<Cell<T>>, path: seq<nat>, links: seq<Detour<T>>, a: nat,
          b: nat)
    requires |nodes| == |c0| && |links| <= |path|
  {
    forall m :: 0 <= m < |links| ==> Bridges(nodes, c0, path[m], links[m], a, b, m)
  }

  /** A level-`m` link from `from` to the first node of that level after `b`, its span not counting `a .. b`. */
  ghost predicate Bridges<T>(nodes: seq<Node<T>>, c0: seq<Cell<T>>, from: nat, d: Detour<T>, a: nat, b: nat, m: nat)
    requires |nodes| == |c0|
  {
    && b < d.far < |c0| && c0[d.far].level >= m
    && (forall k :: b < k < d.far ==> c0[k].level < m)
    && d.next == nodes[d.far] && d.span == d.far - (b + 1 - a) - from
  }

  lemma {:induction false} NextAfterCut<T>(c0: seq<Cell<T>>, c: seq<Cell<T>>, a: nat, b: nat, i: int, j: int, l: nat)
    requires 1 <= a <= b < |c0| && |c| == |c0|
    requires forall k :: 0 <= k < |c0| ==> c[k].level == c0[k].level
    requires 0 <= i < j < |c0| && c0[j].level >= l
    requires forall k :: i < k < j ==> c0[k].level < l || a <= k <= b
    requires (i < a || i > b) && (j < a || j > b)
    ensures IsNext(Cut(c, a, b), if i < a then i else i - (b + 1 - a), if j < a then j else j - (b + 1 - a), l)
  {
  }

  lemma {:induction false} CutLinkAt<T>(nodes: seq<Node<T>>, c0: seq<Cell<T>>, c: seq<Cell<T>>, a: nat, b: nat, i: int,
          j: int, m: nat)
    requires |nodes| == |c0| == |c| && Shape(c0) && Shape(c) && 1 <= a <= b < |c0|
    requires forall k :: 0 <= k < |c0| ==> c[k].level == c0[k].level
    requires 0 <= i < j < |c0| && m <= c0[i].level && c0[j].level >= m
    requires forall k :: i < k < j ==> c0[k].level < m || a <= k <= b
    requires (i < a || i > b) && (j < a || j > b)
    requires c[i].next[m] == nodes[j] && c[i].span[m] == if i < a && b < j then j - (b + 1 - a) - i else j - i
    ensures LinkAt(Cut(nodes, a, b), Cut(c, a, b), if i < a then i else i - (b + 1 - a), m)
  {
    NextAfterCut(c0, c, a, b, i, j, m);
    assert Cut(c, a, b)[if i < a then i else i - (b + 1 - a)] == c[i];
    assert Cut(nodes, a, b)[if j < a then j else j - (b + 1 - a)] == nodes[j];
  }

  lemma {:induction false} CutLinkedAt<T>(nodes: seq<Node<T>>, c0: seq<Cell<T>>, path: seq<nat>, links: seq<Detour<T>>,
          a: nat, b: nat, i: nat, m: nat)
    requires |nodes| == |c0| && Shape(c0) && Linked(nodes, c0, |path|)
    requires |path| == |links| && 1 <= a <= b < |c0| - 1
    requires IsPath(c0, path, a - 1, |path|) && PathFits(c0, path, a - 1)
    requires CutLinks(nodes, c0, path, links, a, b)
    requires i < |c0| - 1 && m <= c0[i].level && m < |path| && (i < a || i > b)
    ensures LinkAt(Cut(nodes, a, b), Cut(Rewire(c0, path, links, a - 1, |path|), a, b),
        if i < a then i else i - (b + 1 - a), m)
  {
    hide Rewire, Cut;
    var c := Rewire(c0, path, links, a - 1, |path|);
    assert IsPrev(c0, path[m], a - 1, m) && LinkAt(nodes, c0, i, m);
    var j := i + c0[i].span[m];
    LinkSide(c0, i, j, m, path[m], a - 1);
    RewireAt(c0, path, links, a - 1, |path|, i, m);
    if i == path[m] {
      assert Bridges(nodes, c0, path[m], links[m], a, b, m);
      CutLinkAt(nodes, c0, c, a, b, i, links[m].far, m);
    } else {
      CutLinkAt(nodes, c0, c, a, b, i, j, m);
    }
  }

  /** The patch loops of `remove` and `remove_between` leave every link of the shorter list right. */
  lemma {:induction false} CutLinked<T>(nodes: seq<Node<T>>, c0: seq<Cell<T>>, path: seq<nat>, links: seq<Detour<T>>,
          a: nat, b: nat)
    requires |nodes| == |c0| && Shape(c0) && Linked(nodes, c0, |path|)
    requires |path| == |links| && 1 <= a <= b < |c0| - 1
    requires IsPath(c0, path, a - 1, |path|) && PathFits(c0, path, a - 1)
    requires CutLinks(nodes, c0, path, links, a, b)
    ensures Linked(Cut(nodes, a, b), Cut(Rewire(c0, path, links, a - 1, |path|), a, b), |path|)
  {
    hide Rewire, LinkAt, IsPath, PathFits, CutLinks;
    var d := Cut(Rewire(c0, path, links, a - 1, |path|), a, b);
    forall i, m | 0 <= i < |d| - 1 && 0 <= m <= d[i].level && m < |path|
      ensures LinkAt(Cut(nodes, a, b), d, i, m)
    {
      CutLinkedAt(nodes, c0, path, links, a, b, if i < a then i else i + (b + 1 - a), m);
    }
  }

  // ---------- what the removals write ----------

  ghost function DropLink<T>(nodes: seq<Node<T>>, c: seq<Cell<T>>, from: nat, p: nat, l: nat): Detour<T>
    requires Shape(c) && |nodes| == |c| && from < |c| && l <= c[from].level && p < |c|
  {
    if c[from].next[l] == nodes[p] && l <= c[p].level
    then Detour(c[p].next[l], c[from].span[l] + c[p].span[l] - 1, p + c[p].span[l])
    else Detour(c[from].next[l], c[from].span[l] - 1, from + c[from].span[l])
  }

  lemma {:induction false} DropLinkReaches<T>(nodes: seq<Node<T>>, c: seq<Cell<T>>, from: nat, p: nat, l: nat)
    requires Shape(c) && |nodes| == |c| && Distinct(nodes) && 1 <= p < |c| - 1
    requires IsPrev(c, from, p - 1, l) && LinkAt(nodes, c, from, l)
    requires l <= c[p].level ==> LinkAt(nodes, c, p, l)
    ensures Bridges(nodes, c, from, DropLink(nodes, c, from, p, l), p, p, l)
    ensures c[from].next[l] == nodes[p] <==> l <= c[p].level
  {
    var q := from + c[from].span[l];
    LinkSide(c, from, q, l, from, p - 1);
  }

  /** One level of `remove_between`: the link of the last path node, or of the last node itself. */
  ghost function BridgeLink<T>(c: seq<Cell<T>>, from: nat, last: nat, b: nat, l: nat, reduction: int): Detour<T>
    requires Shape(c) && from <= last < |c| && l <= c[last].level && b < |c|
  {
    var next := if l <= c[b].level then c[b].next[l] else c[last].next[l];
    Detour(next, last + c[last].span[l] - from - reduction, last + c[last].span[l])
  }

  lemma {:induction false} BridgeLinkReaches<T>(nodes: seq<Node<T>>, c: seq<Cell<T>>, from: nat, last: nat, a: nat,
          b: nat, l: nat)
    requires Shape(c) && |nodes| == |c| && 1 <= a <= b < |c| - 1
    requires IsPrev(c, from, a - 1, l) && IsPrev(c, last, b, l) && LinkAt(nodes, c, last, l)
    ensures from <= last && Bridges(nodes, c, from, BridgeLink(c, from, last, b, l, b + 1 - a), a, b, l)
  {
    assert c[from].level >= l;
    assert l <= c[b].level ==> last == b;
    LinkSide(c, last, last + c[last].span[l], l, last, b);
  }

  ghost function DropLinks<T>(nodes: seq<Node<T>>, c: seq<Cell<T>>, path: seq<nat>, p: nat): (links: seq<Detour<T>>)
    requires Shape(c) && |nodes| == |c| && 1 <= p < |c| && PathFits(c, path, p - 1)
    ensures |links| == |path| && forall l :: 0 <= l < |path| ==> links[l] == DropLink(nodes, c, path[l], p, l)
  {
    seq(|path|, l requires 0 <= l < |path| => DropLink(nodes, c, path[l], p, l))
  }

  ghost function BridgeLinks<T>(c: seq<Cell<T>>, path: seq<nat>, last: seq<nat>, a: nat,
          b: nat): (links: seq<Detour<T>>)
    requires Shape(c) && 1 <= a <= b < |c| && |path| == |last|
    requires forall l :: 0 <= l < |path| ==> path[l] <= last[l] < |c| && l <= c[last[l]].level
    ensures |links| == |path|
        && forall l :: 0 <= l < |path| ==> links[l] == BridgeLink(c, path[l], last[l], b, l, b + 1 - a)
  {
    seq(|path|, l requires 0 <= l < |path| => BridgeLink(c, path[l], last[l], b, l, b + 1 - a))
  }

  /** At its turn, level `l` still holds what it held at first; writing its new link is one `Rewire` step. */
  lemma {:induction false} DropStep<T>(nodes: seq<Node<T>>, c0: seq<Cell<T>>, path: seq<nat>, p: nat, l: nat)
    requires Shape(c0) && |nodes| == |c0| && 1 <= p < |c0| && PathFits(c0, path, p - 1) && l < |path|
    ensures var c, links := Rewire(c0, path, DropLinks(nodes, c0, path, p), p - 1, l), DropLinks(nodes, c0, path, p);
            && c[path[l]].level == c0[path[l]].level && c[p].level == c0[p].level && path[l] < p
            && c[path[l]].next[l] == c0[path[l]].next[l]
            && DropLink(nodes, c, path[l], p, l) == links[l]
            && Relink(c, path[l], l, links[l].next, links[l].span) == Rewire(c0, path, links, p - 1, l + 1)
  {
    var links := DropLinks(nodes, c0, path, p);
    RewireAt(c0, path, links, p - 1, l, path[l], l);
    if l <= c0[p].level {
      RewireAt(c0, path, links, p - 1, l, p, l);
    }
  }

  /** What the two search paths of `remove_between` guarantee. */
  ghost predicate BridgePaths<T>(c: seq<Cell<T>>, path: seq<nat>, last: seq<nat>, a: nat, b: nat) {
    && Shape(c) && 1 <= a <= b < |c| - 1 && |path| == |last| && PathFits(c, path, a - 1)
    && forall l :: 0 <= l < |path| ==>
        path[l] <= last[l] <= b && l <= c[last[l]].level && (l <= c[b].level <==> last[l] == b)
  }

  /** At its turn, level `l` still holds what it held at first. */
  lemma {:induction false} BridgeStepReads<T>(c0: seq<Cell<T>>, path: seq<nat>, last: seq<nat>, links: seq<Detour<T>>,
          a: nat, b: nat, l: nat)
    requires BridgePaths(c0, path, last, a, b) && l < |path| == |links|
    ensures var c := Rewire(c0, path, links, a - 1, l);
            && |c| == |c0| && SameLink(c0, c, path[l], l) && SameLink(c0, c, last[l], l)
            && (l <= c[b].level <==> last[l] == b)
  {
    RewireAt(c0, path, links, a - 1, l, path[l], l);
    RewireAt(c0, path, links, a - 1, l, last[l], l);
  }

  lemma {:induction false} BridgeStep<T>(c0: seq<Cell<T>>, path: seq<nat>, last: seq<nat>, a: nat, b: nat, l: nat)
    requires BridgePaths(c0, path, last, a, b) && l < |path|
    ensures var links := BridgeLinks(c0, path, last, a, b);
            var c := Rewire(c0, path, links, a - 1, l);
            && |c| == |c0| && l <= c[path[l]].level && l <= c[last[l]].level && (l <= c[b].level <==> last[l] == b)
            && BridgeLink(c, path[l], last[l], b, l, b + 1 - a) == links[l]
            && Relink(c, path[l], l, links[l].next, links[l].span) == Rewire(c0, path, links, a - 1, l + 1)
  {
    var links := BridgeLinks(c0, path, last, a, b);
    BridgeStepReads(c0, path, last, links, a, b, l);
    RewireMore(c0, path, links, a - 1, l);
    hide Rewire, Relink, PathFits;
  }

  lemma {:induction false} BridgePathsHere<T>(nodes: seq<Node<T>>, c: seq<Cell<T>>, path: seq<nat>, last: seq<nat>,
          a: nat, b: nat)
    requires |nodes| == |c| && Shape(c) && 1 <= a <= b < |c| - 1 && |path| == |last| && PathFits(c, path, a - 1)
    requires IsPath(c, path, a - 1, |path|) && IsPath(c, last, b, |path|) && Linked(nodes, c, |path|)
    ensures BridgePaths(c, path, last, a, b)
    ensures CutLinks(nodes, c, path, BridgeLinks(c, path, last, a, b), a, b)
  {
    forall l | 0 <= l < |path|
      ensures path[l] <= last[l] <= b && l <= c[last[l]].level && (l <= c[b].level <==> last[l] == b)
      ensures Bridges(nodes, c, path[l], BridgeLink(c, path[l], last[l], b, l, b + 1 - a), a, b, l)
    {
      assert IsPrev(c, path[l], a - 1, l) && IsPrev(c, last[l], b, l) && LinkAt(nodes, c, last[l], l);
      BridgeLinkReaches(nodes, c, path[l], last[l], a, b, l);
    }
  }

  ghost predicate NextsInside<T>(nodes: seq<Node<T>>, c: seq<Cell<T>>, a: nat, b: nat) {
    && |nodes| == |c| && b < |c| - 1
    && forall i :: a <= i <= b ==> |c[i].next| > 0 && c[i].next[0] == nodes[i + 1]
  }

  /** Level-0 links inside the removed range are not rewritten. */
  lemma {:induction false} RangeKeepsNext<T>(nodes: seq<Node<T>>, c: seq<Cell<T>>, path: seq<nat>,
          links: seq<Detour<T>>, a: nat, b: nat, i: nat)
    requires |nodes| == |c| && Shape(c) && |links| == |path| && 1 <= a <= i <= b < |c| - 1 && PathFits(c, path, a - 1)
    requires Linked(nodes, c, |path|) && |path| > 0
    ensures Rewire(c, path, links, a - 1, |path|)[i].next[0] == nodes[i + 1]
  {
    RewireAt(c, path, links, a - 1, |path|, i, 0);
    assert LinkAt(nodes, c, i, 0);
    NextOnLevel0(c, i, i + c[i].span[0]);
  }

  lemma {:induction false} RangeKeepsNexts<T>(nodes: seq<Node<T>>, c: seq<Cell<T>>, path: seq<nat>,
          links: seq<Detour<T>>, a: nat, b: nat)
    requires |nodes| == |c| && Shape(c) && |links| == |path| && 1 <= a <= b < |c| - 1 && PathFits(c, path, a - 1)
    requires Linked(nodes, c, |path|) && |path| > 0
    ensures NextsInside(nodes, Rewire(c, path, links, a - 1, |path|), a, b)
  {
    var d := Rewire(c, path, links, a - 1, |path|);
    forall i | a <= i <= b ensures d[i].next[0] == nodes[i + 1] {
      RangeKeepsNext(nodes, c, path, links, a, b, i);
    }
  }
}
