/** Between two batches: the aborted transactions move to the front of the queue, in order, and
    are renumbered; the rest is later cut off. */
module AriaBatch {
  class Transaction {
    var id: nat
    /** Set by the executors before the batch is cleaned up, and not touched here. */
    const abortLock: bool

    constructor (id: nat, abortLock: bool)
      ensures this.id == id && this.abortLock == abortLock
    {
      this.id, this.abortLock := id, abortLock;
    }
  }

  predicate IsAborted(t: Transaction?)
  {
    t != null && t.abortLock
  }

  /** The aborted transactions of a queue, in queue order. */
  function Aborted(s: seq<Transaction?>): (r: seq<Transaction?>)
    ensures forall i :: 0 <= i < |r| ==> r[i] in s && IsAborted(r[i])
    ensures |r| <= |s|
  {
    if s == [] then []
    else
      var rest := Aborted(s[..|s| - 1]);
      if IsAborted(s[|s| - 1]) then rest + [s[|s| - 1]] else rest
  }

  /** Empty slots aside, no transaction is in the queue twice. */
  predicate Unique(s: seq<Transaction?>) {
    forall i, j :: 0 <= i < j < |s| && s[i] != null ==> s[i] != s[j]
  }

  function Swapped<A>(s: seq<A>, i: nat, j: nat): (t: seq<A>)
    requires i < |s| && j < |s|
    ensures |t| == |s| && t[i] == s[j] && t[j] == s[i]
    ensures forall k :: 0 <= k < |s| && k != i && k != j ==> t[k] == s[k]
  {
    s[i := s[j]][j := s[i]]
  }

  lemma {:induction false} SwapPermutes<A>(s: seq<A>, i: nat, j: nat)
    requires i < |s| && j < |s|
    ensures multiset(Swapped(s, i, j)) == multiset(s)
  {
  }

  /** The first `i` slots of `was` compacted: the aborted ones in front, in order. */
  ghost predicate Compacted(q: seq<Transaction?>, was: seq<Transaction?>, it: nat, i: nat)
  {
    && it <= i <= |q| == |was|
    && q[i..] == was[i..] && q[..it] == Aborted(was[..i])
    && (forall k :: it <= k < i ==> !IsAborted(q[k]))
    && multiset(q) == multiset(was) && Unique(q)
  }

  lemma {:induction false} CompactKeep(q: seq<Transaction?>, was: seq<Transaction?>, it: nat, i: nat)
    requires Compacted(q, was, it, i) && i < |q| && !IsAborted(q[i])
    ensures Compacted(q, was, it, i + 1)
  {
    assert was[..i + 1][..i] == was[..i];
    assert q[i] == q[i..][0] == was[i..][0] == was[i];
    assert q[i + 1..] == q[i..][1..] && was[i + 1..] == was[i..][1..];
  }

  lemma {:induction false} CompactSwap(q: seq<Transaction?>, was: seq<Transaction?>, it: nat, i: nat)
    requires Compacted(q, was, it, i) && i < |q| && IsAborted(q[i])
    ensures Compacted(Swapped(q, it, i), was, it + 1, i + 1)
  {
    var t := Swapped(q, it, i);
    SwapPermutes(q, it, i);
    assert was[..i + 1][..i] == was[..i];
    assert q[i] == q[i..][0] == was[i..][0] == was[i];
    assert t[i + 1..] == q[i..][1..] && was[i + 1..] == was[i..][1..];
    assert t[..it + 1] == q[..it] + [q[i]];
  }

  lemma {:induction false} CompactNone(was: seq<Transaction?>)
    requires Unique(was)
    ensures Compacted(was, was, 0, 0) && Numbered(was, 0)
  {
  }

  /** The slots and ids that a finished compaction leaves behind. */
  lemma {:induction false} CompactAll(q: seq<Transaction?>, was: seq<Transaction?>, it: nat)
    requires Compacted(q, was, it, |was|)
    ensures it == |Aborted(was)| <= |q| == |was| && q[..it] == Aborted(was) && multiset(q) == multiset(was)
    ensures forall i :: it <= i < |q| ==> !IsAborted(q[i])
  {
    assert was[..|was|] == was;
  }

  lemma {:induction false} CompactFacts(q: seq<Transaction?>, was: seq<Transaction?>, it: nat, i: nat)
    requires Compacted(q, was, it, i) && i < |q|
    ensures it <= i && |q| == |was| && q[i] == was[i] && Unique(q)
  {
    assert q[i] == q[i..][0] == was[i..][0] == was[i];
  }

  ghost predicate Numbered(q: seq<Transaction?>, it: nat)
    requires it <= |q|
    reads q
  {
    forall k :: 0 <= k < it ==> q[k] != null && q[k].id == k
  }

  /** Only aborted transactions have been renumbered so far. */
  twostate predicate OthersKeepIds(was: seq<Transaction?>)
    reads was
  {
    forall k :: 0 <= k < |was| && was[k] != null && !was[k].abortLock ==> was[k].id == old(was[k].id)
  }

  /** One aborted transaction moves to slot `it` and takes its number. */
  method MoveUp(queue: array<Transaction?>, it: nat, i: nat)
    requires it <= i < queue.Length && IsAborted(queue[i]) && Unique(queue[..]) && Numbered(queue[..], it)
    modifies queue, queue[i..i + 1]`id
    ensures queue[..] == Swapped(old(queue[..]), it, i)
    ensures Numbered(queue[..], it + 1)
  {
    queue[it], queue[i] := queue[i], queue[it];
    queue[it].id := it;
    assert queue[..] == Swapped(old(queue[..]), it, i);
    assert queue[it] == old(queue[..])[i] && forall k :: 0 <= k < it ==> queue[k] == old(queue[..])[k];
  }

  method CleanupBatch(queue: array<Transaction?>) returns (totalAbort: nat)
    requires Unique(queue[..])
    modifies queue, queue[..]`id
    ensures totalAbort == |Aborted(old(queue[..]))| <= queue.Length
    ensures queue[..totalAbort] == Aborted(old(queue[..]))
    ensures multiset(queue[..]) == multiset(old(queue[..]))
    ensures forall i :: totalAbort <= i < queue.Length ==> !IsAborted(queue[i])
    ensures Numbered(queue[..], totalAbort)
    ensures OthersKeepIds(old(queue[..]))
  {
    hide Compacted, Aborted, Numbered, Unique, Swapped;
    ghost var was := queue[..];
    var i, it := 0, 0;
    CompactNone(was);
    while i < queue.Length
      invariant 0 <= it <= i <= queue.Length && Compacted(queue[..], was, it, i)
      invariant Numbered(queue[..], it) && OthersKeepIds(was)
    {
      CompactFacts(queue[..], was, it, i);
      if queue[i] != null && queue[i].abortLock {
        CompactSwap(queue[..], was, it, i);
        MoveUp(queue, it, i);
        it := it + 1;
      } else {
        CompactKeep(queue[..], was, it, i);
      }
      i := i + 1;
    }
    totalAbort := it;
    CompactAll(queue[..], was, it);
  }
}
