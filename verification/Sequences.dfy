/** One element put into a sequence, a stretch cut out of it, and walking over a set. */
module Sequences {
  /** Where position `i` of the spliced list came from. */
  function Before(r: nat, i: int): int {
    if i <= r then i else i - 1
  }

  function Splice<A>(s: seq<A>, r: nat, x: A): (t: seq<A>)
    requires r < |s|
    ensures |t| == |s| + 1 && t[r + 1] == x
    ensures forall k :: 0 <= k < |t| && k != r + 1 ==> t[k] == s[Before(r, k)]
  {
    seq(|s| + 1, k requires 0 <= k <= |s| => if k <= r then s[k] else if k == r + 1 then x else s[k - 1])
  }

  function Cut<A>(s: seq<A>, a: nat, b: nat): (t: seq<A>)
    requires a <= b < |s|
    ensures |t| == |s| - (b + 1 - a)
    ensures forall k :: 0 <= k < |t| ==> t[k] == s[if k < a then k else k + (b + 1 - a)]
  {
    seq(|s| - (b + 1 - a), k requires 0 <= k < |s| - (b + 1 - a) => s[if k < a then k else k + (b + 1 - a)])
  }

  ghost function Elements<A>(s: seq<A>): set<A> {
    set x | x in s
  }

  ghost predicate Distinct<A>(s: seq<A>) {
    forall i, j :: 0 <= i < j < |s| ==> s[i] != s[j]
  }

  /** The next element of an iteration in no particular order. */
  method Pick<T>(s: set<T>) returns (x: T)
    requires s != {}
    ensures x in s
  {
    x :| x in s;
  }
}
