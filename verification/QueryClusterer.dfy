/** The clustering of query templates. How similar two things are, and which cluster is nearest, is
    left open: every test of a similarity may go either way, and the nearest neighbour may be any
    cluster that the tree holds. What is proved is that the books stay straight whatever the
    answers: templates are partitioned into live clusters, a template's entry names its cluster,
    the tree holds exactly the live clusters, and their indices are different and are the bits
    that the bitmap has in use. */
module QueryClusterer {
  import opened Counting
  import opened IndexBitmap
  import opened Sequences

  type Template = string

  const MAX_CLUSTERS: nat := 500

  class Cluster {
    var index: int
    var templates: set<Template>

    /** A cluster with its first template and its index set. */
    constructor (t: Template, index: int)
      ensures this.index == index && templates == {t}
    {
      this.index, templates := -1, {};
      new;
      templates := templates + {t};
      this.index := index;
    }
  }

  /** The nearest-neighbour tree: the clusters it was given. */
  class KDTree {
    var clusters: seq<Cluster>

    constructor ()
      ensures clusters == []
    {
      clusters := [];
    }
  }

  /** Which cluster every known template is in: each is in exactly one live cluster, the one its
      entry names. Clusters in `gone` are merged away and no longer count. */
  ghost predicate Partition(known: set<Template>, entry: map<Template, Cluster>, members: map<Cluster,
          set<Template>>, gone: set<Cluster>) {
    && (forall t :: t in known ==> t in entry && entry[t] in members && entry[t] !in gone && t in members[entry[t]])
    && forall c: Cluster, t :: c in members && c !in gone && t in members[c] ==> t in known && entry[t] == c
  }

  /** The live clusters have different indices, and the used bits are exactly these. */
  ghost predicate Indexed(indexOf: map<Cluster, nat>, used: set<nat>) {
    && (forall c: Cluster, d: Cluster :: c in indexOf && d in indexOf && c != d ==> indexOf[c] != indexOf[d])
    && used == indexOf.Values
  }

  lemma {:induction false} IndexAdded(indexOf: map<Cluster, nat>, used: set<nat>, c: Cluster, index: nat)
    requires Indexed(indexOf, used) && c !in indexOf && index !in used
    ensures Indexed(indexOf[c := index], used + {index})
  {
    var more := indexOf[c := index];
    forall d: Cluster | d in more ensures d != c ==> more[d] != index {
      if d != c {
        assert more[d] == indexOf[d] && indexOf[d] in indexOf.Values;
      }
    }
    forall i | i in used + {index} ensures i in more.Values {
      if i == index {
        assert more[c] == index;
      } else {
        var d: Cluster :| d in indexOf && indexOf[d] == i;
        assert more[d] == i;
      }
    }
    forall i | i in more.Values ensures i in used + {index} {
      var d: Cluster :| d in more && more[d] == i;
      assert d != c ==> indexOf[d] in indexOf.Values;
    }
  }

  lemma {:induction false} IndexDropped(indexOf: map<Cluster, nat>, used: set<nat>, c: Cluster)
    requires Indexed(indexOf, used) && c in indexOf
    ensures Indexed(indexOf - {c}, used - {indexOf[c]})
  {
    var fewer := indexOf - {c};
    forall i | i in used - {indexOf[c]} ensures i in fewer.Values {
      var d: Cluster :| d in indexOf && indexOf[d] == i;
      assert d in fewer && fewer[d] == i;
    }
    forall i | i in fewer.Values ensures i in used - {indexOf[c]} {
      var d: Cluster :| d in fewer && fewer[d] == i;
      assert indexOf[d] in indexOf.Values && d != c;
    }
  }

  /** A new cluster for a template that is in no cluster. */
  lemma {:induction false} JoinsNew(known: set<Template>, entry: map<Template, Cluster>, members: map<Cluster,
          set<Template>>, t: Template, c: Cluster)
    requires Partition(known, entry, members, {}) && t !in known && c !in members
    ensures Partition(known + {t}, entry[t := c], members[c := {t}], {})
  {
  }

  /** The template joins an existing cluster. */
  lemma {:induction false} JoinsOld(known: set<Template>, entry: map<Template, Cluster>, members: map<Cluster,
          set<Template>>, t: Template, c: Cluster)
    requires Partition(known, entry, members, {}) && t !in known && c in members
    ensures Partition(known + {t}, entry[t := c], members[c := members[c] + {t}], {})
  {
  }

  /** A template leaves its cluster. */
  lemma {:induction false} Leaves(known: set<Template>, entry: map<Template, Cluster>, members: map<Cluster,
          set<Template>>, t: Template)
    requires Partition(known, entry, members, {}) && t in known
    ensures Partition(known - {t}, entry, members[entry[t] := members[entry[t]] - {t}], {})
  {
  }

  /** One of the templates of `left` is handed to `right`: `done` of them have been. */
  ghost predicate Moving(known: set<Template>, entry: map<Template, Cluster>, members: map<Cluster,
          set<Template>>, gone: set<Cluster>, left: Cluster, right: Cluster, todo: set<Template>) {
    && left in members && right in members && left !in gone && right !in gone && left != right && todo <= members[left]
    && (forall t :: t in known ==> t in entry && entry[t] in members && entry[t] !in gone && t in members[entry[t]])
    && (forall t :: t in members[left] ==> t in known && entry[t] == if t in todo then left else right)
    && forall c: Cluster, t :: c in members && c !in gone && c != left && t in members[c] ==>
        t in known && entry[t] == c
  }

  lemma {:induction false} MoveStarts(known: set<Template>, entry: map<Template, Cluster>, members: map<Cluster,
          set<Template>>, gone: set<Cluster>, left: Cluster, right: Cluster)
    requires Partition(known, entry, members, gone) && left in members && right in members && left !in gone
    requires right !in gone && left != right
    ensures Moving(known, entry, members, gone, left, right, members[left])
  {
  }

  lemma {:induction false} MovesOne(known: set<Template>, entry: map<Template, Cluster>, members: map<Cluster,
          set<Template>>, gone: set<Cluster>, left: Cluster, right: Cluster, todo: set<Template>, t: Template)
    requires Moving(known, entry, members, gone, left, right, todo) && t in todo
    ensures Moving(known, entry[t := right], members[right := members[right] + {t}], gone, left, right, todo - {t})
  {
  }

  lemma {:induction false} MoveEnds(known: set<Template>, entry: map<Template, Cluster>, members: map<Cluster,
          set<Template>>, gone: set<Cluster>, left: Cluster, right: Cluster)
    requires Moving(known, entry, members, gone, left, right, {})
    ensures Partition(known, entry, members, gone + {left})
  {
  }

  lemma {:induction false} GoneDropped(known: set<Template>, entry: map<Template, Cluster>, members: map<Cluster,
          set<Template>>, gone: set<Cluster>)
    requires Partition(known, entry, members, gone)
    ensures Partition(known, entry, members - gone, {})
  {
  }

  lemma {:induction false} PartitionRest(known: set<Template>, entry: map<Template, Cluster>, members: map<Cluster,
          set<Template>>, c: Cluster)
    requires Partition(known, entry, members, {}) && c in members
    ensures Partition(known - members[c], entry, members - {c}, {}) && members[c] <= known
  {
    var rest := members - {c};
    forall d: Cluster, t | d in rest && t in rest[d] ensures t in known - members[c] && entry[t] == d {
      assert t in members[d] && t in known;
    }
  }

  /** Different clusters that all hold a template are no more than the templates. */
  lemma {:induction false} NoMoreThanTemplates(known: set<Template>, entry: map<Template, Cluster>,
          members: map<Cluster, set<Template>>)
    requires Partition(known, entry, members, {}) && Full(members, {})
    ensures |members.Keys| <= |known|
    decreases known
  {
    if members.Keys != {} {
      var c: Cluster :| c in members;
      var t :| t in members[c];
      PartitionRest(known, entry, members, c);
      hide Partition;
      NoMoreThanTemplates(known - members[c], entry, members - {c});
      assert members.Keys == (members - {c}).Keys + {c};
      Smaller(known - members[c], known, t);
    }
  }

  lemma {:induction false} Smaller<T>(s: set<T>, u: set<T>, t: T)
    requires s <= u && t in u && t !in s
    ensures |s| + 1 <= |u|
  {
    assert u == (s + {t}) + (u - (s + {t}));
  }

  lemma {:induction false} FewerValues(m: map<Cluster, nat>)
    ensures |m.Values| <= |m.Keys|
    decreases |m.Keys|
  {
    if m.Keys == {} {
      assert m.Values == {};
    } else {
      var c: Cluster :| c in m;
      var fewer := m - {c};
      FewerValues(fewer);
      assert m.Keys == fewer.Keys + {c};
      forall i | i in m.Values ensures i in fewer.Values + {m[c]} {
        var d: Cluster :| d in m && m[d] == i;
        assert d != c ==> d in fewer && fewer[d] == i;
      }
      Subset(m.Values, fewer.Values + {m[c]});
    }
  }

  /** With fewer than `size` clusters one of the `size` indices is free. */
  lemma {:induction false} IndexFree(indexOf: map<Cluster, nat>, used: set<nat>, size: nat)
    requires Indexed(indexOf, used) && |indexOf.Keys| < size
    ensures exists i: nat :: i < size && i !in used
  {
    FewerValues(indexOf);
    if forall i: nat :: i < size ==> i in used {
      assert Nodes(size) <= used by {
        forall i | i in Nodes(size) ensures i in used {
          assert 0 <= i < size;
        }
      }
      Subset(Nodes(size), used);
    }
  }

  /** The elements of a set in some order. */
  method Enumerate<T>(s: set<T>) returns (order: seq<T>)
    ensures s == set x | x in order
    ensures forall i, j :: 0 <= i < j < |order| ==> order[i] != order[j]
  {
    order := [];
    var left := s;
    while left != {}
      invariant left <= s && s - left == set x | x in order
      invariant forall i, j :: 0 <= i < j < |order| ==> order[i] != order[j]
      decreases |left|
    {
      var x := Pick(left);
      assert (set y | y in order + [x]) == (set y | y in order) + {x};
      order, left := order + [x], left - {x};
    }
  }

  lemma {:induction false} MinusOneMore(m: map<Cluster, set<Template>>,
          all: set<Cluster>, gone: set<Cluster>, dropped: set<Cluster>, c: Cluster)
    ensures (m - dropped) - {c} == m - (dropped + {c}) && (all - dropped) - {c} == all - (dropped + {c})
    ensures (gone - dropped) - {c} == gone - (dropped + {c})
  {
  }

  lemma {:induction false} EmptyGone(members: map<Cluster, set<Template>>, empty: set<Cluster>)
    requires empty <= members.Keys && forall c: Cluster :: c in members ==> (c in empty <==> members[c] == {})
    ensures members - empty == WithoutEmpty(members)
  {
  }

  lemma {:induction false} PlacedNear(t: Template, answer: Answer, before: Ledger)
    requires before.tree != [] && answer.similar && Nearest(before.tree, answer.nearest) in before.members
    ensures var c := Nearest(before.tree, answer.nearest);
            Placed(t, answer, before, Ledger(before.entry[t := c], before.members[c := before.members[c] + {t}],
                                             before.tree))
  {
  }

  lemma {:induction false} PlacedAlone(t: Template, answer: Answer, before: Ledger, c: Cluster)
    requires (before.tree == [] || !answer.similar) && c !in before.members
    ensures Placed(t, answer, before, Ledger(before.entry[t := c], before.members[c := {t}], before.tree + [c]))
  {
  }

  /** Placing a template empties no cluster. */
  lemma {:induction false} PlacedFull(t: Template, answer: Answer, before: Ledger, after: Ledger)
    requires Placed(t, answer, before, after) && Full(before.members, {})
    ensures Full(after.members, {})
  {
  }

  lemma {:induction false} FullWithoutEmpty(members: map<Cluster, set<Template>>)
    ensures Full(WithoutEmpty(members), {})
  {
  }

  lemma {:induction false} NoneReconsidered(answers: Template -> Answer, l: Ledger)
    ensures AllReconsidered([], answers, [l])
  {
  }

  lemma {:induction false} OneReconsidered(order: seq<Template>, answers: Template -> Answer, ledgers: seq<Ledger>,
          t: Template, l: Ledger)
    requires AllReconsidered(order, answers, ledgers) && Reconsidered(t, answers(t), ledgers[|order|], l)
    ensures AllReconsidered(order + [t], answers, ledgers + [l])
  {
    hide Reconsidered;
    var order1, ledgers1 := order + [t], ledgers + [l];
    forall i | 0 <= i < |order1| ensures Reconsidered(order1[i], answers(order1[i]), ledgers1[i], ledgers1[i + 1]) {
      if i < |order| {
        assert Reconsidered(order[i], answers(order[i]), ledgers[i], ledgers[i + 1]);
      }
    }
  }

  lemma {:induction false} OneElementMore<A>(s: seq<A>, x: A)
    requires Distinct(s) && x !in Elements(s)
    ensures Distinct(s + [x]) && Elements(s + [x]) == Elements(s) + {x}
  {
  }

  lemma {:induction false} EmptyDropped(known: set<Template>, entry: map<Template, Cluster>, members: map<Cluster,
          set<Template>>, empty: set<Cluster>)
    requires Partition(known, entry, members, {}) && empty <= members.Keys
        && forall c: Cluster :: c in members && c in empty ==> members[c] == {}
    ensures Partition(known, entry, members - empty, {})
  {
  }

  /** What the clusters hold while `todo` is still to be handed from `left` to `right`. */
  ghost predicate Moved(members: map<Cluster, set<Template>>, left: Cluster, right: Cluster,
          todo: set<Template>, now: map<Cluster, set<Template>>) {
    && left in members && right in members && todo <= members[left]
    && now == members[right := members[right] + (members[left] - todo)]
  }

  lemma {:induction false} MovedNone(members: map<Cluster, set<Template>>, left: Cluster, right: Cluster)
    requires left in members && right in members
    ensures Moved(members, left, right, members[left], members)
  {
    assert members[right] + (members[left] - members[left]) == members[right];
  }

  lemma {:induction false} MovedMore(members: map<Cluster, set<Template>>, left: Cluster, right: Cluster,
          todo: set<Template>, now: map<Cluster, set<Template>>, t: Template)
    requires Moved(members, left, right, todo, now) && t in todo
    ensures Moved(members, left, right, todo - {t}, now[right := now[right] + {t}])
  {
    assert members[right] + (members[left] - todo) + {t} == members[right] + (members[left] - (todo - {t}));
  }

  lemma {:induction false} MovedAll(members: map<Cluster, set<Template>>, left: Cluster, right: Cluster,
          now: map<Cluster, set<Template>>)
    requires Moved(members, left, right, {}, now)
    ensures left in members && right in members && now == members[right := members[right] + members[left]]
  {
    assert members[left] - {} == members[left];
  }

  // ---------- what the answers decide ----------

  /** The entries, the contents of the clusters, and the tree's list. */
  datatype Ledger = Ledger(entry: map<Template, Cluster>, members: map<Cluster, set<Template>>, tree: seq<Cluster>)

  /** The answers for one template: whether it has become too unlike its cluster, the place of the nearest
      cluster in the tree, and whether that one is similar enough. */
  datatype Answer = Answer(unlike: bool, nearest: int, similar: bool)

  function Nearest(tree: seq<Cluster>, nearest: int): (c: Cluster)
    requires tree != []
    ensures c in tree
  {
    tree[if 0 <= nearest < |tree| then nearest else 0]
  }

  /** The template has joined the nearest cluster if that is similar enough, and nothing else has changed;
      otherwise it has a cluster of its own, which the tree has got too. */
  ghost predicate Placed(t: Template, answer: Answer, before: Ledger, after: Ledger) {
    if before.tree != [] && answer.similar then
      var c := Nearest(before.tree, answer.nearest);
      c in before.members
      && after == Ledger(before.entry[t := c], before.members[c := before.members[c] + {t}], before.tree)
    else
      t in after.entry && after.entry[t] !in before.members
      && var c := after.entry[t];
         after == Ledger(before.entry[t := c], before.members[c := {t}], before.tree + [c])
  }

  /** The template has left its cluster, if it was too unlike, and been placed anew. */
  ghost predicate Reconsidered(t: Template, answer: Answer, before: Ledger, after: Ledger) {
    if !answer.unlike then after == before
    else
      t in before.entry && before.entry[t] in before.members
      && var c := before.entry[t];
         Placed(t, answer, before.(members := before.members[c := before.members[c] - {t}]), after)
  }

  /** All templates have been reconsidered, one after the other. */
  ghost predicate AllReconsidered(order: seq<Template>, answers: Template -> Answer, ledgers: seq<Ledger>) {
    |ledgers| == |order| + 1
    && forall i :: 0 <= i < |order| ==> Reconsidered(order[i], answers(order[i]), ledgers[i], ledgers[i + 1])
  }

  ghost function WithoutEmpty(members: map<Cluster, set<Template>>): map<Cluster, set<Template>> {
    map c | c in members && members[c] != {} :: members[c]
  }

  /** The first cluster from place `j` on that is alike to the one at place `i`, or `n` for none. */
  function MergeTarget(alike: (nat, nat) -> bool, i: nat, j: nat, n: nat): (k: nat)
    requires j <= n
    ensures j <= k <= n && (k < n ==> alike(i, k)) && forall x :: j <= x < k ==> !alike(i, x)
    decreases n - j
  {
    if j == n || alike(i, j) then j else MergeTarget(alike, i, j + 1, n)
  }

  /** What the clusters hold after the first `i` of them have been merged into later ones. */
  ghost function Merged(order: seq<Cluster>, alike: (nat, nat) -> bool, i: nat, members: map<Cluster, set<Template>>):
      (r: map<Cluster, set<Template>>)
    requires i <= |order| && forall k :: 0 <= k < |order| ==> order[k] in members
    ensures r.Keys == members.Keys
  {
    if i == 0 then members else
      var before := Merged(order, alike, i - 1, members);
      var k := MergeTarget(alike, i - 1, i, |order|);
      if k == |order| then before
      else before[order[k] := before[order[k]] + before[order[i - 1]]]
  }

  /** Where the templates of the cluster at place `i` are after `m` rounds: they follow the merges. */
  function PlaceAfter(alike: (nat, nat) -> bool, i: nat, m: nat, n: nat): (k: nat)
    requires i < n
    ensures i <= k < n && (k < m ==> MergeTarget(alike, k, k + 1, n) == n)
    decreases n - i
  {
    if i >= m then i else
      var k := MergeTarget(alike, i, i + 1, n);
      if k == n then i else PlaceAfter(alike, k, m, n)
  }

  lemma {:induction false} PlaceStep(alike: (nat, nat) -> bool, i: nat, m: nat, n: nat)
    requires i < n && m < n
    ensures var k, t := PlaceAfter(alike, i, m, n), MergeTarget(alike, m, m + 1, n);
            PlaceAfter(alike, i, m + 1, n) == if k == m && t < n then t else k
    decreases n - i
  {
    if i < m {
      var k := MergeTarget(alike, i, i + 1, n);
      if k < n {
        PlaceStep(alike, k, m, n);
      }
    }
  }

  /** Templates that are in one cluster stay together, and end in the last cluster that their merges
      lead to. */
  lemma {:induction false} MergesFollowed(order: seq<Cluster>, alike: (nat, nat) -> bool, i: nat, m: nat,
          members: map<Cluster, set<Template>>)
    requires i < |order| && m <= |order| && forall k :: 0 <= k < |order| ==> order[k] in members
    ensures members[order[i]] <= Merged(order, alike, m, members)[order[PlaceAfter(alike, i, m, |order|)]]
    decreases m
  {
    hide MergeTarget;
    if m > 0 {
      MergesFollowed(order, alike, i, m - 1, members);
      PlaceStep(alike, i, m - 1, |order|);
    }
  }

  /** The clusters among the first `i` that are merged away. */
  ghost function MergedAway(order: seq<Cluster>, alike: (nat, nat) -> bool, i: nat): set<Cluster>
    requires i <= |order|
  {
    if i == 0 then {} else
      MergedAway(order, alike, i - 1)
      + if MergeTarget(alike, i - 1, i, |order|) < |order| then {order[i - 1]} else {}
  }

  /** Every cluster that is not gone has a template. */
  ghost predicate Full(members: map<Cluster, set<Template>>, gone: set<Cluster>) {
    forall c: Cluster :: c in members && c !in gone ==> members[c] != {}
  }

  lemma {:induction false} NothingMerged(order: seq<Cluster>, alike: (nat, nat) -> bool,
          members: map<Cluster, set<Template>>)
    requires forall k :: 0 <= k < |order| ==> order[k] in members
    ensures Merged(order, alike, 0, members) == members && MergedAway(order, alike, 0) == {}
  {
  }

  lemma {:induction false} MergeStep(order: seq<Cluster>, alike: (nat, nat) -> bool, i: nat,
          members: map<Cluster, set<Template>>)
    requires i < |order| && forall k :: 0 <= k < |order| ==> order[k] in members
    ensures var before, k := Merged(order, alike, i, members), MergeTarget(alike, i, i + 1, |order|);
            && Merged(order, alike, i + 1, members)
               == (if k == |order| then before else before[order[k] := before[order[k]] + before[order[i]]])
            && MergedAway(order, alike, i + 1)
               == MergedAway(order, alike, i) + if k < |order| then {order[i]} else {}
  {
  }

  lemma {:induction false} FullDropped(members: map<Cluster, set<Template>>, gone: set<Cluster>)
    requires Full(members, gone)
    ensures Full(members - gone, {})
  {
  }

  /** `order` lists the clusters, and only the first `i` of them can be gone. */
  ghost predicate Listed(order: seq<Cluster>, i: nat, clusters: set<Cluster>, gone: set<Cluster>) {
    && (forall j, k :: 0 <= j < k < |order| ==> order[j] != order[k])
    && (forall j :: 0 <= j < |order| ==> order[j] in clusters && (j >= i ==> order[j] !in gone))
    && gone <= clusters
  }

  lemma {:induction false} StartListed(order: seq<Cluster>, clusters: set<Cluster>)
    requires clusters == (set c | c in order) && forall j, k :: 0 <= j < k < |order| ==> order[j] != order[k]
    ensures Listed(order, 0, clusters, {})
  {
  }

  lemma {:induction false} AllListed(order: seq<Cluster>, clusters: set<Cluster>)
    requires Listed(order, 0, clusters, {})
    ensures forall k :: 0 <= k < |order| ==> order[k] in clusters
  {
  }

  lemma {:induction false} StillListed(order: seq<Cluster>, i: nat, clusters: set<Cluster>, gone: set<Cluster>)
    requires Listed(order, i, clusters, gone) && i < |order|
    ensures Listed(order, i + 1, clusters, gone) && Listed(order, i + 1, clusters, gone + {order[i]})
  {
  }

  lemma {:induction false} GoneListed(order: seq<Cluster>, i: nat, clusters: set<Cluster>, gone: set<Cluster>)
    requires Listed(order, i, clusters, gone)
    ensures gone <= clusters
  {
  }

  class QueryClusterer {
    const tree: KDTree
    const bitmap: Bitmap
    var known: set<Template>
    var templateCluster: map<Template, Cluster>
    var clusters: set<Cluster>
    ghost var members: map<Cluster, set<Template>>
    ghost var indexOf: map<Cluster, nat>

    /** `members` and `indexOf` say what the live clusters hold. */
    ghost predicate Rep()
      reads `clusters, `members, `indexOf, clusters
    {
      && members.Keys == clusters && indexOf.Keys == clusters
      && forall c :: c in clusters ==> c.templates == members[c] && c.index == indexOf[c]
    }

    ghost predicate Books()
      reads `clusters, `members, `indexOf, clusters, bitmap, bitmap.bytes
    {
      Rep() && bitmap.Valid() && bitmap.size == MAX_CLUSTERS && Indexed(indexOf, bitmap.Used())
    }

    /** The tree holds exactly the live clusters. */
    ghost predicate Mirrored()
      reads `clusters, tree
    {
      clusters == set c | c in tree.clusters
    }

    /** Each known template is in exactly one live cluster, which its entry names and the tree
        knows; the live clusters have different indices, the used bits; none is empty. */
    ghost predicate Valid()
      reads this, clusters, tree, bitmap, bitmap.bytes
    {
      && Books() && Mirrored() && Partition(known, templateCluster, members, {}) && Full(members, {})
    }

    constructor ()
      ensures Valid() && known == {} && fresh(tree) && fresh(bitmap) && fresh(bitmap.bytes)
    {
      tree := new KDTree();
      bitmap := new Bitmap(MAX_CLUSTERS);
      known, templateCluster, clusters, members, indexOf := {}, map[], {}, map[], map[];
      new;
      assert indexOf.Values == {};
    }

    method FreeIndex() returns (index: nat)
      requires Books() && |clusters| < MAX_CLUSTERS
      ensures index < MAX_CLUSTERS && IsLowest(bitmap.Used(), 0, index)
    {
      hide Indexed;
      IndexFree(indexOf, bitmap.Used(), MAX_CLUSTERS);
      ghost var i: nat :| i < MAX_CLUSTERS && i !in bitmap.Used();
      var free := bitmap.NextUnsettedBit(0);
      assert i !in bitmap.Used();
      index := free;
    }

    /** A new cluster joins the live ones. */
    method Enroll(c: Cluster, ghost index: nat)
      requires Rep() && c !in clusters && c.index == index
      modifies `clusters, `members, `indexOf
      ensures Rep() && clusters == old(clusters) + {c}
      ensures members == old(members)[c := c.templates] && indexOf == old(indexOf)[c := index]
    {
      clusters, members, indexOf := clusters + {c}, members[c := c.templates], indexOf[c := index];
    }

    /** A new cluster with one template and the lowest free index. */
    method CreateNewCluster(t: Template) returns (c: Cluster)
      requires Books() && |clusters| < MAX_CLUSTERS
      modifies `clusters, `members, `indexOf, bitmap.bytes
      ensures Books() && fresh(c) && clusters == old(clusters) + {c} && members == old(members)[c := {t}]
      ensures c.index >= 0 && IsLowest(old(bitmap.Used()), 0, c.index)
    {
      hide Indexed, Rep;
      var index := FreeIndex();
      c := new Cluster(t, index);
      Strangers(c);
      IndexAdded(indexOf, bitmap.Used(), c, index);
      Enroll(c, index);
      bitmap.SetBit(index);
    }

    lemma {:induction false} LiveOnly()
      requires Books()
      ensures members.Keys == clusters
    {
    }

    lemma {:induction false} Strangers(c: Cluster)
      requires Rep()
      ensures c !in clusters ==> c !in indexOf && c !in members
    {
    }

    /** The cluster with the nearest index, where `nearest` is the tree's answer. */
    method GetNN(nearest: int) returns (cluster: Cluster?)
      requires Books() && Mirrored()
      ensures if tree.clusters == [] then cluster == null
              else cluster != null && cluster in clusters && cluster == Nearest(tree.clusters, nearest)
    {
      hide Indexed;
      cluster := null;
      if |tree.clusters| > 0 {
        var place := if 0 <= nearest < |tree.clusters| then nearest else 0;
        var closest := tree.clusters[place].index;
        var i := 0;
        while tree.clusters[i].index != closest
          invariant 0 <= i <= place
          decreases place - i
        {
          i := i + 1;
        }
        cluster := tree.clusters[i];
        SameIndex(cluster, tree.clusters[place]);
      }
    }

    lemma {:induction false} SameIndex(c: Cluster, d: Cluster)
      requires Books() && c in clusters && d in clusters && c.index == d.index
      ensures c == d
    {
    }

    ghost function Now(): Ledger
      reads `templateCluster, `members, tree
    {
      Ledger(templateCluster, members, tree.clusters)
    }

    method AddTemplate(c: Cluster, t: Template)
      requires Books() && c in clusters
      modifies `members, c
      ensures Books() && members == old(members)[c := old(members)[c] + {t}]
    {
      c.templates := c.templates + {t};
      members := members[c := members[c] + {t}];
    }

    method RemoveTemplate(c: Cluster, t: Template)
      requires Books() && c in clusters
      modifies `members, c
      ensures Books() && members == old(members)[c := old(members)[c] - {t}]
    {
      c.templates := c.templates - {t};
      members := members[c := members[c] - {t}];
    }

    method TreeInsert(c: Cluster)
      requires c in clusters && clusters - {c} == set d | d in tree.clusters
      modifies tree
      ensures Mirrored() && tree.clusters == old(tree.clusters) + [c]
    {
      assert (set d | d in tree.clusters + [c]) == (set d | d in tree.clusters) + {c};
      tree.clusters := tree.clusters + [c];
    }

    /** The template joins a live cluster. */
    method JoinCluster(t: Template, cluster: Cluster)
      requires Books() && Mirrored() && cluster in clusters && t in known
      requires Partition(known - {t}, templateCluster, members, {})
      modifies `templateCluster, `members, cluster
      ensures Books() && Mirrored() && Partition(known, templateCluster, members, {})
      ensures members == old(members)[cluster := old(members)[cluster] + {t}]
      ensures templateCluster == old(templateCluster)[t := cluster]
    {
      hide Partition, Indexed;
      assert known - {t} + {t} == known;
      JoinsOld(known - {t}, templateCluster, members, t, cluster);
      AddTemplate(cluster, t);
      templateCluster := templateCluster[t := cluster];
    }

    /** A new cluster that the tree knows. */
    method FoundCluster(t: Template) returns (c: Cluster)
      requires Books() && Mirrored() && |clusters| < MAX_CLUSTERS
      modifies `clusters, `members, `indexOf, tree, bitmap.bytes
      ensures Books() && Mirrored() && tree.clusters == old(tree.clusters) + [c]
      ensures fresh(c) && clusters == old(clusters) + {c} && members == old(members)[c := {t}]
    {
      hide Indexed, Rep;
      c := CreateNewCluster(t);
      assert clusters - {c} == old(clusters);
      TreeInsert(c);
    }

    /** The template gets a cluster of its own. */
    method OpenCluster(t: Template) returns (c: Cluster)
      requires Books() && Mirrored() && t in known && Partition(known - {t}, templateCluster, members, {})
      requires |clusters| < MAX_CLUSTERS
      modifies `templateCluster, `clusters, `members, `indexOf, tree, bitmap.bytes
      ensures Books() && Mirrored() && Partition(known, templateCluster, members, {})
      ensures fresh(c) && clusters == old(clusters) + {c} && members == old(members)[c := {t}]
      ensures templateCluster == old(templateCluster)[t := c] && tree.clusters == old(tree.clusters) + [c]
      ensures c !in old(members)
    {
      hide Partition, Books, Mirrored;
      assert known - {t} + {t} == known;
      LiveOnly();
      c := FoundCluster(t);
      JoinsNew(known - {t}, templateCluster, old(members), t, c);
      templateCluster := templateCluster[t := c];
    }

    /** Puts a template that is in no cluster into the nearest one, if that is similar enough, or
        into a new one. */
    method UpdateTemplate(t: Template, answer: Answer)
      requires Books() && Mirrored() && t in known && Partition(known - {t}, templateCluster, members, {})
      requires |clusters| < MAX_CLUSTERS || (answer.similar && tree.clusters != [])
      modifies `templateCluster, `clusters, `members, `indexOf, clusters, tree, bitmap.bytes
      ensures Books() && Mirrored() && Partition(known, templateCluster, members, {})
      ensures Placed(t, answer, old(Now()), Now())
      ensures old(clusters) <= clusters && |clusters| <= |old(clusters)| + 1 && fresh(clusters - old(clusters))
    {
      hide Partition, Books, Mirrored, Placed;
      ghost var before := Now();
      LiveOnly();
      var cluster := GetNN(answer.nearest);
      if cluster != null && answer.similar {
        JoinCluster(t, cluster);
        PlacedNear(t, answer, before);
      } else {
        var c := OpenCluster(t);
        PlacedAlone(t, answer, before, c);
      }
    }

    /** A new template gets a cluster; a known one only new numbers. A free index is needed for a
        new template that does not join a cluster. */
    method AddFeature(t: Template, answer: Answer)
      requires Valid() && (t in known || (answer.similar && tree.clusters != []) || |clusters| < MAX_CLUSTERS)
      modifies this, clusters, tree, bitmap.bytes
      ensures Valid() && known == old(known) + {t} && old(clusters) <= clusters && fresh(clusters - old(clusters))
      ensures if t in old(known) then Now() == old(Now()) && clusters == old(clusters)
              else Placed(t, answer, old(Now()), Now())
    {
      hide Partition, Indexed, Placed, Full;
      if t !in known {
        assert known + {t} - {t} == known;
        known := known + {t};
        ghost var before := Now();
        UpdateTemplate(t, answer);
        PlacedFull(t, answer, before, Now());
      }
    }

    /** Takes clusters that hold no known template out of the books and frees their indices. */
    method DropClusters(gone: set<Cluster>)
      requires Books() && gone <= clusters
      modifies `clusters, `members, `indexOf, bitmap.bytes
      ensures Books() && clusters == old(clusters) - gone && members == old(members) - gone
    {
      hide Books;
      LiveOnly();
      var left := gone;
      ghost var dropped: set<Cluster> := {};
      while left != {}
        invariant left == gone - dropped && dropped <= gone && Books() && members.Keys == clusters
        invariant clusters == old(clusters) - dropped && members == old(members) - dropped
        decreases |left|
      {
        var c := Pick(left);
        MinusOneMore(old(members), old(clusters), gone, dropped, c);
        DropCluster(c);
        left, dropped := left - {c}, dropped + {c};
      }
      assert dropped == gone;
    }

    method DropCluster(c: Cluster)
      requires Books() && c in clusters
      modifies `clusters, `members, `indexOf, bitmap.bytes
      ensures Books() && clusters == old(clusters) - {c} && members == old(members) - {c} && members.Keys == clusters
    {
      hide Indexed;
      IndexDropped(indexOf, bitmap.Used(), c);
      IndexInRange(c);
      bitmap.ClearBit(c.index);
      clusters, members, indexOf := clusters - {c}, members - {c}, indexOf - {c};
    }

    lemma {:induction false} IndexInRange(c: Cluster)
      requires Books() && c in clusters
      ensures 0 <= c.index < MAX_CLUSTERS && indexOf[c] == c.index
    {
      assert indexOf[c] in indexOf.Values;
    }

    /** The tree forgets what it held and takes all live clusters. */
    method TreeBuild()
      modifies tree
      ensures Mirrored()
    {
      tree.clusters := Enumerate(clusters);
    }

    lemma {:induction false} EntryIsLive(t: Template)
      requires Books() && Partition(known, templateCluster, members, {}) && t in known
      ensures t in templateCluster && templateCluster[t] in clusters
    {
    }

    /** One round of the loop over templates: a template that is too unlike its cluster leaves it
        and is placed anew. */
    method Reconsider(t: Template, answer: Answer)
      requires Books() && Mirrored() && t in known && Partition(known, templateCluster, members, {})
      requires |clusters| < MAX_CLUSTERS
      modifies `templateCluster, `clusters, `members, `indexOf, clusters, tree, bitmap.bytes
      ensures Books() && Mirrored() && Partition(known, templateCluster, members, {})
      ensures Reconsidered(t, answer, old(Now()), Now())
      ensures |clusters| <= |old(clusters)| + 1 && fresh(clusters - old(clusters))
    {
      hide Partition, Indexed, Placed;
      if answer.unlike {
        EntryIsLive(t);
        Leaves(known, templateCluster, members, t);
        RemoveTemplate(templateCluster[t], t);
        UpdateTemplate(t, answer);
      }
    }

    /** The loop over all templates. */
    method ReconsiderAll(answers: Template -> Answer) returns (ghost order: seq<Template>, ghost ledgers: seq<Ledger>)
      requires Books() && Mirrored() && Partition(known, templateCluster, members, {})
      requires |clusters| + |known| <= MAX_CLUSTERS
      modifies `templateCluster, `clusters, `members, `indexOf, clusters, tree, bitmap.bytes
      ensures Books() && Mirrored() && Partition(known, templateCluster, members, {})
      ensures fresh(clusters - old(clusters))
      ensures Distinct(order) && Elements(order) == known && AllReconsidered(order, answers, ledgers)
      ensures ledgers[0] == old(Now()) && ledgers[|order|] == Now()
    {
      hide Partition, Indexed, Books, Reconsidered, AllReconsidered;
      var left := known;
      order, ledgers := [], [Now()];
      NoneReconsidered(answers, Now());
      while left != {}
        invariant left <= known && Books() && Mirrored() && Partition(known, templateCluster, members, {})
        invariant |clusters| + |left| <= MAX_CLUSTERS && fresh(clusters - old(clusters))
        invariant Distinct(order) && Elements(order) == known - left && AllReconsidered(order, answers, ledgers)
        invariant |ledgers| == |order| + 1 && ledgers[0] == old(Now()) && ledgers[|order|] == Now()
        decreases |left|
      {
        var t := Pick(left);
        assert |left| == |left - {t}| + 1;
        ghost var before := Now();
        Reconsider(t, answers(t));
        OneReconsidered(order, answers, ledgers, t, Now());
        OneElementMore(order, t);
        order, ledgers := order + [t], ledgers + [Now()];
        left := left - {t};
      }
    }

    /** The clusters without templates. */
    method EmptyClusters() returns (empty: set<Cluster>)
      requires Books() && members.Keys == clusters
      ensures empty <= clusters && forall c :: c in clusters ==> (c in empty <==> members[c] == {})
    {
      empty := {};
      var left := clusters;
      while left != {}
        invariant left <= clusters && empty <= clusters - left
        invariant forall c :: c in clusters - left ==> (c in empty <==> members[c] == {})
        decreases |left|
      {
        var c := Pick(left);
        if c.templates == {} {
          empty := empty + {c};
        }
        left := left - {c};
      }
    }

    /** All templates are reconsidered, in some order, and then the empty clusters are dropped. */
    method UpdateExistingTemplates(answers: Template -> Answer)
      returns (ghost order: seq<Template>, ghost ledgers: seq<Ledger>)
      requires Valid() && |clusters| + |known| <= MAX_CLUSTERS
      modifies this, clusters, tree, bitmap.bytes
      ensures Valid() && known == old(known) && fresh(clusters - old(clusters))
      ensures Distinct(order) && Elements(order) == known && AllReconsidered(order, answers, ledgers)
      ensures ledgers[0] == old(Now())
      ensures templateCluster == ledgers[|order|].entry && members == WithoutEmpty(ledgers[|order|].members)
    {
      hide Partition, Books, AllReconsidered, Distinct, Elements, WithoutEmpty, Full;
      order, ledgers := ReconsiderAll(answers);
      LiveOnly();
      var empty := EmptyClusters();
      EmptyDropped(known, templateCluster, members, empty);
      EmptyGone(members, empty);
      FullWithoutEmpty(members);
      DropClusters(empty);
      TreeBuild();
    }

    /** All templates of `left` go over to `right`. */
    method MergeInto(left: Cluster, right: Cluster, ghost gone: set<Cluster>)
      requires Books() && left in clusters - gone && right in clusters - gone && left != right
      requires Partition(known, templateCluster, members, gone)
      modifies `templateCluster, `members, right
      ensures Books() && Partition(known, templateCluster, members, gone + {left})
      ensures members == old(members)[right := old(members)[right] + old(members)[left]]
    {
      hide Partition, Moving, Books, Moved;
      LiveOnly();
      MoveStarts(known, templateCluster, members, gone, left, right);
      TemplatesAre(left);
      var todo := left.templates;
      MovedNone(members, left, right);
      while todo != {}
        invariant Books() && members.Keys == clusters && Moved(old(members), left, right, todo, members)
        invariant Moving(known, templateCluster, members, gone, left, right, todo)
        decreases |todo|
      {
        var t := Pick(todo);
        MovesOne(known, templateCluster, members, gone, left, right, todo, t);
        MovedMore(old(members), left, right, todo, members, t);
        AddTemplate(right, t);
        templateCluster := templateCluster[t := right];
        todo := todo - {t};
      }
      MovedAll(old(members), left, right, members);
      MoveEnds(known, templateCluster, members, gone, left, right);
    }

    lemma {:induction false} TemplatesAre(c: Cluster)
      requires Books() && c in clusters
      ensures c in members && members[c] == c.templates
    {
    }

    /** Looks for the first later cluster that is like cluster `i`, and merges `i` into it. */
    method MergeOne(order: seq<Cluster>, i: nat, alike: (nat, nat) -> bool, ghost gone: set<Cluster>)
      returns (merged: bool)
      requires Books() && Partition(known, templateCluster, members, gone) && Listed(order, i, clusters, gone)
      requires i < |order|
      requires Full(members, gone)
      modifies `templateCluster, `members, clusters
      ensures Books() && Partition(known, templateCluster, members, if merged then gone + {order[i]} else gone)
      ensures Full(members, if merged then gone + {order[i]} else gone)
      ensures var k := MergeTarget(alike, i, i + 1, |order|);
              && (merged <==> k < |order|) && order[i] in old(members) && (merged ==> order[k] in old(members))
              && members == if merged then old(members)[order[k] := old(members)[order[k]] + old(members)[order[i]]]
                            else old(members)
    {
      hide Partition, Books;
      LiveOnly();
      merged := false;
      var j := i + 1;
      while j < |order|
        invariant i < j <= |order| && MergeTarget(alike, i, i + 1, |order|) == MergeTarget(alike, i, j, |order|)
        invariant !merged && members == old(members) && Books() && Partition(known, templateCluster, members, gone)
      {
        if alike(i, j) {
          assert order[i] in clusters - gone && order[j] in clusters - gone;
          MergeInto(order[i], order[j], gone);
          return true;
        }
        j := j + 1;
      }
    }

    /** Every cluster is merged into the first one after it that is alike, if there is one; what was merged
        away is dropped. `alike` tells of two places in the order of the clusters. */
    method MergeClusters(alike: (nat, nat) -> bool) returns (ghost places: seq<Cluster>)
      requires Valid()
      modifies this, clusters, tree, bitmap.bytes
      ensures Valid() && known == old(known) && clusters <= old(clusters)
      ensures Distinct(places) && Elements(places) == old(clusters) && old(members).Keys == old(clusters)
      ensures members == Merged(places, alike, |places|, old(members)) - MergedAway(places, alike, |places|)
    {
      hide Partition, Books, Full, Listed, Merged, MergedAway;
      LiveOnly();
      var order := Enumerate(clusters);
      places := order;
      StartListed(order, clusters);
      var gone := MergeAll(order, alike);
      FullDropped(members, gone);
      GoneDropped(known, templateCluster, members, gone);
      DropClusters(gone);
      TreeBuild();
    }

    /** The loop over the clusters to be merged. */
    method MergeAll(order: seq<Cluster>, alike: (nat, nat) -> bool) returns (gone: set<Cluster>)
      requires Books() && Partition(known, templateCluster, members, {}) && Listed(order, 0, clusters, {})
      requires Full(members, {}) && members.Keys == clusters
      modifies `templateCluster, `members, clusters
      ensures Books() && Partition(known, templateCluster, members, gone) && Full(members, gone) && gone <= clusters
      ensures forall k :: 0 <= k < |order| ==> order[k] in old(members)
      ensures members == Merged(order, alike, |order|, old(members)) && gone == MergedAway(order, alike, |order|)
    {
      hide Partition, Books, Full, Listed, Merged, MergedAway;
      gone := {};
      AllListed(order, clusters);
      NothingMerged(order, alike, members);
      for i := 0 to |order|
        invariant Books() && Partition(known, templateCluster, members, gone) && Listed(order, i, clusters, gone)
        invariant Full(members, gone)
        invariant forall k :: 0 <= k < |order| ==> order[k] in old(members)
        invariant members == Merged(order, alike, i, old(members)) && gone == MergedAway(order, alike, i)
      {
        StillListed(order, i, clusters, gone);
        MergeStep(order, alike, i, old(members));
        var merged := MergeOne(order, i, alike, gone);
        if merged {
          gone := gone + {order[i]};
        }
      }
      GoneListed(order, |order|, clusters, gone);
    }

    /** The periodic update. */
    method UpdateCluster(answers: Template -> Answer, alike: (nat, nat) -> bool)
      returns (ghost order: seq<Template>, ghost ledgers: seq<Ledger>, ghost places: seq<Cluster>)
      requires Valid() && |clusters| + |known| <= MAX_CLUSTERS
      modifies this, clusters, tree, bitmap.bytes
      ensures Valid() && known == old(known) && fresh(clusters - old(clusters))
      ensures Distinct(order) && Elements(order) == known && AllReconsidered(order, answers, ledgers)
      ensures ledgers[0] == old(Now())
      ensures var kept := WithoutEmpty(ledgers[|order|].members);
              && Distinct(places) && Elements(places) == kept.Keys
              && members == Merged(places, alike, |places|, kept) - MergedAway(places, alike, |places|)
    {
      hide Merged, MergedAway, AllReconsidered, WithoutEmpty, Partition, Indexed;
      order, ledgers := UpdateExistingTemplates(answers);
      places := MergeClusters(alike);
    }

    /** There are at most as many clusters as templates, so a number of templates that is at most
        half the number of indices leaves enough of them for an update. */
    lemma {:induction false} EnoughIndices()
      requires Valid()
      ensures |clusters| <= |known|
      ensures 2 * |known| <= MAX_CLUSTERS ==> |clusters| + |known| <= MAX_CLUSTERS
    {
      hide Partition;
      NoMoreThanTemplates(known, templateCluster, members);
    }
  }
}
