/** What a call of the Clay planner's inner loop may do, stated over values: where a plan goes, how it
    grows, and when it is handed out. */
module MovePlans {
  import opened CoAccessGraph
  import opened Sequences
  import opened Sums

  /** A directed edge of the graph as the planner stores it. */
  datatype Edge = Edge(to: Key, fromId: int, toId: int, onSame: bool, degree: int)

  /** A key to be moved, with its coordinator. */
  datatype Record = Record(key: Key, src: int)

  datatype Plan = Plan(records: seq<Record>, dest: int)

  type Loads = map<int, int>

  /** What the planner goes by: the keys in order of first access, the history, the routing and the
      average load. */
  datatype Setting = Setting(order: seq<Key>, history: seq<Txn>, home: Key -> int, average: int)

  function Get<K>(m: map<K, int>, k: K): int {
    if k in m then m[k] else 0
  }

  /** The ends of a stored edge are right for the routing. */
  predicate EdgeFits(home: Key -> int, a: Key, b: Key, e: Edge) {
    e.to == b && e.fromId == home(a) && e.toId == home(b) && (e.onSame <==> home(a) == home(b))
  }

  ghost function Targets(edges: seq<Edge>): (s: seq<Key>)
    ensures |s| == |edges| && forall i :: 0 <= i < |s| ==> s[i] == edges[i].to
  {
    seq(|edges|, i requires 0 <= i < |edges| => edges[i].to)
  }

  function KeysOf(records: seq<Record>): (s: seq<Key>)
    ensures |s| == |records| && forall i :: 0 <= i < |s| ==> s[i] == records[i].key
  {
    seq(|records|, i requires 0 <= i < |records| => records[i].key)
  }

  // ---------- destinations ----------

  function ReceiverDelta(g: Setting, p: Plan): int {
    ReceiverCosts(g.order, g.history, g.home, KeysOf(p.records), p.dest)
  }

  function SenderDelta(g: Setting, p: Plan, src: int): int {
    SenderCosts(g.order, g.history, g.home, KeysOf(p.records), p.dest, src)
  }

  /** The destination stays below the average, or its load falls. */
  predicate Feasible(g: Setting, loads: Loads, p: Plan) {
    Get(loads, p.dest) + ReceiverDelta(g, p) < g.average || ReceiverDelta(g, p) < 0
  }

  /** Of these coordinators other than `from`, `d` is the first of those that pay least. */
  ghost predicate Cheapest(g: Setting, ids: set<int>, records: seq<Record>, from: int, d: int) {
    && d in ids && d != from
    && forall c :: c in ids && c != from ==> NoDearer(g, records, d, c)
  }

  ghost predicate NoDearer(g: Setting, records: seq<Record>, d: int, c: int) {
    || ReceiverDelta(g, Plan(records, d)) < ReceiverDelta(g, Plan(records, c))
    || (ReceiverDelta(g, Plan(records, d)) == ReceiverDelta(g, Plan(records, c)) && d <= c)
  }

  /** The first coordinator with the least load. */
  ghost predicate LeastLoaded(loads: Loads, d: int) {
    d in loads && forall c :: c in loads ==> loads[d] < loads[c] || (loads[d] == loads[c] && d <= c)
  }

  function RelatedTerm(h: seq<Txn>, home: Key -> int, k: Key, c: int): Key -> int {
    b => if home(b) == c then Degree(h, home, k, b) else 0
  }

  /** The degrees of the edges from these keys to keys on `c`. */
  function Related(g: Setting, records: seq<Record>, c: int): int {
    if records == [] then 0
    else
      var last := |records| - 1;
      Related(g, records[..last], c) + Sum(g.order, RelatedTerm(g.history, g.home, records[last].key, c))
  }

  /** Some edge leads from one of these keys to a key on `c`. */
  ghost predicate Reaches(g: Setting, records: seq<Record>, c: int) {
    exists i, b :: 0 <= i < |records| && EverTogether(g.history, records[i].key, b) && g.home(b) == c
  }

  ghost predicate MostRelated(g: Setting, records: seq<Record>, d: int) {
    Reaches(g, records, d) && forall c :: Reaches(g, records, c) ==> Related(g, records, c) <= Related(g, records, d)
  }

  /** The new destination of a plan that has grown: the old one if it is feasible, otherwise the most
      related coordinator, otherwise the least loaded one, otherwise the old one all the same. */
  ghost predicate Redirected(g: Setting, loads: Loads, p: Plan, d: int) {
    if Feasible(g, loads, p) then d == p.dest
    else exists a :: MostRelated(g, p.records, a)
           && if Feasible(g, loads, p.(dest := a)) then d == a
              else exists l :: LeastLoaded(loads, l) && d == if Feasible(g, loads, p.(dest := l)) then l else p.dest
  }

  // ---------- a plan in the making ----------

  /** A plan in the making: its first key, the queue once the neighbours of this key have joined it,
      the edges taken from the queue so far, the edges still queued, and the plan after every step. */
  datatype Making = Making(root: Record, queue: seq<Edge>, taken: seq<Edge>, rest: seq<Edge>, stages: seq<Plan>)

  function Extended(m: Making, n: nat): seq<Record>
    requires n <= |m.taken|
  {
    [m.root] + seq(n, i requires 0 <= i < n => Record(m.taken[i].to, m.taken[i].toId))
  }

  /** Every edge of the queue is taken or left, those of higher degree first. */
  ghost predicate TakenInOrder(m: Making) {
    && multiset(m.taken) + multiset(m.rest) == multiset(m.queue)
    && (forall i, j :: 0 <= i < j < |m.taken| ==> m.taken[j].degree <= m.taken[i].degree)
    && forall i, e :: 0 <= i < |m.taken| && e in m.rest ==> e.degree <= m.taken[i].degree
  }

  ghost predicate StageFits(g: Setting, loads: Loads, from: int, m: Making, n: nat)
    requires n < |m.stages| == |m.taken| + 1
  {
    && m.stages[n].records == Extended(m, n)
    && if n == 0 then Cheapest(g, loads.Keys, [m.root], from, m.stages[0].dest)
       else Redirected(g, loads, Plan(Extended(m, n), m.stages[n - 1].dest), m.stages[n].dest)
  }

  ghost predicate Grown(g: Setting, loads: Loads, from: int, m: Making) {
    && |m.stages| == |m.taken| + 1 && TakenInOrder(m)
    && forall n :: 0 <= n < |m.stages| ==> StageFits(g, loads, from, m, n)
  }

  /** The last feasible stage, or -1. */
  function Best(g: Setting, loads: Loads, stages: seq<Plan>): (n: int)
    ensures -1 <= n < |stages|
    ensures n >= 0 ==> Feasible(g, loads, stages[n])
    ensures forall k :: n < k < |stages| ==> !Feasible(g, loads, stages[k])
  {
    if stages == [] then -1
    else if Feasible(g, loads, stages[|stages| - 1]) then |stages| - 1
    else Best(g, loads, stages[..|stages| - 1])
  }

  /** How many stages after the first feasible one were not feasible. */
  function Failures(g: Setting, loads: Loads, stages: seq<Plan>): nat {
    if stages == [] then 0
    else
      var front, last := stages[..|stages| - 1], stages[|stages| - 1];
      Failures(g, loads, front) + if !Feasible(g, loads, last) && Best(g, loads, front) >= 0 then 1 else 0
  }

  /** The plan is handed out: something was feasible, and the failures have reached the bound just now,
      or the queue is empty. */
  ghost predicate Complete(g: Setting, loads: Loads, lookAhead: nat, m: Making) {
    && |m.stages| > 0 && Best(g, loads, m.stages) >= 0
    && (Failures(g, loads, m.stages) == lookAhead || m.rest == [])
    && Failures(g, loads, m.stages[..|m.stages| - 1]) < lookAhead
  }

  /** The candidate and the number of failures still allowed, as the loop keeps them. */
  ghost predicate Judged(g: Setting, loads: Loads, lookAhead: nat, stages: seq<Plan>, candidate: Plan, left: int) {
    && (if Best(g, loads, stages) == -1 then candidate.records == [] else candidate == stages[Best(g, loads, stages)])
    && left == lookAhead - Failures(g, loads, stages)
  }

  /** The plan is given up: nothing was feasible, and the queue is empty. */
  ghost predicate GivenUp(g: Setting, loads: Loads, m: Making) {
    Best(g, loads, m.stages) == -1 && m.rest == []
  }

  // ---------- a call ----------

  /** What the planner keeps from plan to plan. */
  datatype Desk = Desk(marked: set<Key>, queue: seq<Edge>, loads: Loads, plans: seq<Plan>)

  /** The first key of the heap that is not marked. */
  ghost predicate FirstFresh(heap: seq<Key>, marked: set<Key>, key: Key) {
    exists i :: 0 <= i < |heap| && heap[i] == key && key !in marked && forall k :: 0 <= k < i ==> heap[k] in marked
  }

  /** One edge of the graph to each neighbour of `key` that is not marked. */
  ghost predicate NewEdges(h: seq<Txn>, home: Key -> int, key: Key, marked: set<Key>, edges: seq<Edge>) {
    && Distinct(Targets(edges))
    && (forall b :: b in Targets(edges) <==> EverTogether(h, key, b) && b !in marked && b != key)
    && forall i :: 0 <= i < |edges| ==>
         EdgeFits(home, key, edges[i].to, edges[i]) && edges[i].degree == Degree(h, home, key, edges[i].to)
  }

  /** The first key and all its neighbours are marked. */
  ghost predicate Marked(h: seq<Txn>, key: Key, before: set<Key>, after: set<Key>) {
    forall a :: a in after <==> a in before || a == key || EverTogether(h, key, a)
  }

  /** The queue has grown by these edges. */
  ghost predicate Joined(h: seq<Txn>, home: Key -> int, key: Key, marked: set<Key>, before: seq<Edge>,
          after: seq<Edge>) {
    exists edges :: NewEdges(h, home, key, marked, edges) && after == before + edges
  }

  /** A plan of `from` begins, with the first key of the heap that no plan has looked at. */
  ghost predicate Begun(g: Setting, heap: seq<Key>, from: int, before: Desk, m: Making, marked: set<Key>) {
    && Get(before.loads, from) > g.average
    && FirstFresh(heap, before.marked, m.root.key) && m.root.src == g.home(m.root.key)
    && Joined(g.history, g.home, m.root.key, before.marked, before.queue, m.queue)
    && Marked(g.history, m.root.key, before.marked, marked)
  }

  /** The loads after a plan of `from` has been booked, at the sender and then at the destination. */
  function Booked(g: Setting, loads: Loads, from: int, p: Plan): Loads {
    var sent := loads[from := Get(loads, from) + SenderDelta(g, p, from)];
    sent[p.dest := Get(sent, p.dest) + ReceiverDelta(g, p)]
  }

  /** One plan of a call, from desk to desk. */
  ghost predicate PlanMade(g: Setting, heap: seq<Key>, from: int, lookAhead: nat, before: Desk, m: Making,
          after: Desk) {
    && Begun(g, heap, from, before, m, after.marked) && Grown(g, before.loads, from, m)
    && Complete(g, before.loads, lookAhead, m) && after.queue == m.rest
    && var plan := m.stages[Best(g, before.loads, m.stages)];
       after.plans == before.plans + [plan] && after.loads == Booked(g, before.loads, from, plan)
  }

  ghost predicate PlansMade(g: Setting, heap: seq<Key>, from: int, lookAhead: nat, desks: seq<Desk>,
          ms: seq<Making>) {
    && |desks| == |ms| + 1
    && forall i :: 0 <= i < |ms| ==> PlanMade(g, heap, from, lookAhead, desks[i], ms[i], desks[i + 1])
  }

  lemma {:induction false} NoPlanMade(g: Setting, heap: seq<Key>, from: int, lookAhead: nat, desk: Desk)
    ensures PlansMade(g, heap, from, lookAhead, [desk], [])
  {
  }

  lemma {:induction false} OnePlanMore(g: Setting, heap: seq<Key>, from: int, lookAhead: nat, desks: seq<Desk>,
          ms: seq<Making>, m: Making, after: Desk)
    requires PlansMade(g, heap, from, lookAhead, desks, ms)
    requires PlanMade(g, heap, from, lookAhead, desks[|ms|], m, after)
    ensures PlansMade(g, heap, from, lookAhead, desks + [after], ms + [m])
  {
    hide PlanMade;
    var desks1, ms1 := desks + [after], ms + [m];
    forall i | 0 <= i < |ms1| ensures PlanMade(g, heap, from, lookAhead, desks1[i], ms1[i], desks1[i + 1]) {
      if i < |ms| {
        assert PlanMade(g, heap, from, lookAhead, desks[i], ms[i], desks[i + 1]);
      }
    }
  }

  /** The call ends when the load is down, when the heap is used up, or when a plan is given up. */
  ghost predicate Ended(g: Setting, heap: seq<Key>, from: int, last: Desk, end: Desk) {
    || (end == last && (Get(last.loads, from) <= g.average || forall i :: 0 <= i < |heap| ==> heap[i] in last.marked))
    || exists m :: GaveUp(g, heap, from, last, m, end)
  }

  ghost predicate GaveUp(g: Setting, heap: seq<Key>, from: int, last: Desk, m: Making, end: Desk) {
    && Begun(g, heap, from, last, m, end.marked) && Grown(g, last.loads, from, m) && GivenUp(g, last.loads, m)
    && end.queue == [] && end.loads == last.loads && end.plans == last.plans
  }

  /** The queue is empty before the failures have reached the bound. */
  lemma {:induction false} CompleteAtEnd(g: Setting, loads: Loads, lookAhead: nat, m: Making, candidate: Plan,
          left: int)
    requires Judged(g, loads, lookAhead, m.stages, candidate, left) && left > 0 && m.rest == [] && m.stages != []
    ensures candidate.records != [] ==>
              Complete(g, loads, lookAhead, m) && candidate == m.stages[Best(g, loads, m.stages)]
    ensures candidate.records == [] && (forall i :: 0 <= i < |m.stages| ==> m.stages[i].records != []) ==>
              GivenUp(g, loads, m)
  {
    hide Feasible;
  }

  /** The failures have just reached the bound. */
  lemma {:induction false} CompleteByFailures(g: Setting, loads: Loads, lookAhead: nat, m: Making, before: Plan,
          left: int, candidate: Plan)
    requires m.stages != [] && Judged(g, loads, lookAhead, m.stages[..|m.stages| - 1], before, left) && left > 0
    requires Judged(g, loads, lookAhead, m.stages, candidate, 0)
    ensures Complete(g, loads, lookAhead, m) && candidate == m.stages[Best(g, loads, m.stages)]
  {
    hide Feasible;
  }

  // ---------- what a call is for ----------

  /** A plan leaves its destination below the average load, or with less than it had. */
  lemma {:induction false} PlanHelps(g: Setting, heap: seq<Key>, from: int, lookAhead: nat, before: Desk, m: Making,
          after: Desk)
    requires PlanMade(g, heap, from, lookAhead, before, m, after)
    ensures |after.plans| == |before.plans| + 1
    ensures var d := after.plans[|before.plans|].dest;
            d != from ==> Get(after.loads, d) < g.average || Get(after.loads, d) < Get(before.loads, d)
  {
  }

  /** A plan has the keys it was extended by, all but at most `lookAhead` of them. */
  lemma {:induction false} PlanIsLong(g: Setting, heap: seq<Key>, from: int, lookAhead: nat, before: Desk, m: Making,
          after: Desk)
    requires PlanMade(g, heap, from, lookAhead, before, m, after)
    ensures |after.plans| == |before.plans| + 1
    ensures var records := after.plans[|before.plans|].records;
            && 0 < |records| <= |m.taken| + 1 <= |records| + lookAhead
            && records == Extended(m, |records| - 1)
  {
    hide Begun, Booked, Feasible, TakenInOrder, Redirected, Cheapest;
    var n := Best(g, before.loads, m.stages);
    assert StageFits(g, before.loads, from, m, n);
    FailuresBound(g, before.loads, m.stages);
    FailuresLast(g, before.loads, m.stages);
  }

  /** A plan starts feasible if some other coordinator would have less load with its key. */
  lemma {:induction false} CheapestIsFeasible(g: Setting, loads: Loads, records: seq<Record>, from: int, d: int, c: int)
    requires Cheapest(g, loads.Keys, records, from, d)
    requires c in loads && c != from && ReceiverDelta(g, Plan(records, c)) < 0
    ensures Feasible(g, loads, Plan(records, d))
  {
    hide ReceiverDelta;
  }

  /** All accesses and edges of these keys. */
  function Outgoing(g: Setting, records: seq<Record>): int {
    if records == [] then 0
    else
      var last := |records| - 1;
      Outgoing(g, records[..last]) + Hot(g.history, records[last].key)
      + Sum(g.order, Degrees(g.history, g.home, records[last].key))
  }

  /** For a coordinator that has none of the keys yet, what it would pay falls with how related it is: the
      most related of these coordinators is the cheapest. */
  lemma {:induction false} RelatedIsCheaper(g: Setting, records: seq<Record>, d: int)
    requires forall i :: 0 <= i < |records| ==> g.home(records[i].key) != d
    ensures ReceiverDelta(g, Plan(records, d)) == Outgoing(g, records) - 2 * Related(g, records, d)
  {
    if records != [] {
      var last := |records| - 1;
      var k := records[last].key;
      RelatedIsCheaper(g, records[..last], d);
      assert KeysOf(records)[..last] == KeysOf(records[..last]);
      hide Sum, Hot;
      OneIsCheaper(g, k, d);
    }
  }

  lemma {:induction false} OneIsCheaper(g: Setting, k: Key, d: int)
    ensures Sum(g.order, ReceiverTerms(g.history, g.home, k, d))
         == Sum(g.order, Degrees(g.history, g.home, k)) - 2 * Sum(g.order, RelatedTerm(g.history, g.home, k, d))
  {
    var related := RelatedTerm(g.history, g.home, k, d);
    var once := b => ReceiverTerms(g.history, g.home, k, d)(b) + related(b);
    hide Degree;
    SumPlus(g.order, ReceiverTerms(g.history, g.home, k, d), related, once);
    SumPlus(g.order, once, related, Degrees(g.history, g.home, k));
  }

  /** A plan that has become infeasible is so still only if neither the most related nor the least
      loaded coordinator would do. */
  lemma {:induction false} RedirectedHelps(g: Setting, loads: Loads, p: Plan, d: int)
    requires Redirected(g, loads, p, d) && !Feasible(g, loads, p.(dest := d))
    ensures !Feasible(g, loads, p) && d == p.dest
    ensures exists a, l :: MostRelated(g, p.records, a) && LeastLoaded(loads, l)
              && !Feasible(g, loads, p.(dest := a)) && !Feasible(g, loads, p.(dest := l))
  {
    hide Feasible, MostRelated, LeastLoaded;
    assert p.(dest := p.dest) == p;
  }

  /** What the booking of a plan leaves out, when the loads were those of the graph: edges to neighbours
      that stay behind, co-accesses within the plan counted twice, and at the sender what is booked for
      keys of other coordinators. Other coordinators' loads stay. */
  lemma {:induction false} BookedFallsShort(g: Setting, loads: Loads, from: int, p: Plan)
    requires Distinct(g.order) && Distinct(KeysOf(p.records)) && from != p.dest
    requires forall i :: 0 <= i < |p.records| ==> p.records[i].key in g.order
    requires forall c :: Get(loads, c) == GraphLoad(g.order, g.history, g.home, c)
    ensures var booked, ks := Booked(g, loads, from, p), KeysOf(p.records);
            var moved := MovedAll(g.home, ks, p.dest);
            && GraphLoad(g.order, g.history, moved, p.dest)
               == Get(booked, p.dest) + LeftOut(g.order, g.history, g.home, ks, p.dest)
                  - 2 * Inside(g.history, ks, AwayFrom(g.home, p.dest))
            && GraphLoad(g.order, g.history, moved, from)
               == Get(booked, from) + LeftOutAtSender(g.order, g.history, g.home, ks, p.dest, from)
                  - 2 * Inside(g.history, ks, LivingAt(g.home, from))
            && forall c :: c != from && c != p.dest ==> Get(booked, c) == Get(loads, c)
  {
    hide GraphLoad, ReceiverCosts, SenderCosts, LeftOut, LeftOutAtSender, Inside;
    ReceiverChangeOfPlan(g.order, g.history, g.home, KeysOf(p.records), p.dest);
    SenderChangeOfPlan(g.order, g.history, g.home, KeysOf(p.records), p.dest, from);
  }

  lemma {:induction false} GrownFirst(g: Setting, loads: Loads, from: int, root: Record, queue: seq<Edge>, d: int)
    requires Cheapest(g, loads.Keys, [root], from, d)
    ensures Grown(g, loads, from, Making(root, queue, [], queue, [Plan([root], d)]))
  {
    hide Cheapest;
    var m := Making(root, queue, [], queue, [Plan([root], d)]);
    assert Extended(m, 0) == [root];
  }

  /** The plan with one more edge taken from the queue. */
  function Grow(m: Making, i: nat, p: Plan): Making
    requires i < |m.rest|
  {
    m.(taken := m.taken + [m.rest[i]], rest := m.rest[..i] + m.rest[i + 1..], stages := m.stages + [p])
  }

  lemma {:induction false} InOrderMore(m: Making, i: nat, p: Plan)
    requires TakenInOrder(m) && i < |m.rest| && forall e :: e in m.rest ==> e.degree <= m.rest[i].degree
    ensures TakenInOrder(Grow(m, i, p))
  {
    var more := Grow(m, i, p);
    assert m.rest == m.rest[..i] + [m.rest[i]] + m.rest[i + 1..];
    forall e | e in more.rest ensures e in m.rest {
    }
  }

  lemma {:induction false} ExtendedMore(m: Making, i: nat, p: Plan, k: nat)
    requires i < |m.rest| && k <= |m.taken|
    ensures Extended(Grow(m, i, p), k) == Extended(m, k)
    ensures k == |m.taken| ==>
              Extended(Grow(m, i, p), k + 1) == Extended(m, k) + [Record(m.rest[i].to, m.rest[i].toId)]
  {
  }

  lemma {:induction false} GrownMore(g: Setting, loads: Loads, from: int, m: Making, i: nat, p: Plan)
    requires Grown(g, loads, from, m) && i < |m.rest| && forall e :: e in m.rest ==> e.degree <= m.rest[i].degree
    requires p.records == m.stages[|m.stages| - 1].records + [Record(m.rest[i].to, m.rest[i].toId)]
    requires Redirected(g, loads, Plan(p.records, m.stages[|m.stages| - 1].dest), p.dest)
    ensures Grown(g, loads, from, Grow(m, i, p))
  {
    hide Cheapest, Redirected, TakenInOrder, Extended;
    var more := Grow(m, i, p);
    var n := |m.taken|;
    InOrderMore(m, i, p);
    assert StageFits(g, loads, from, m, n);
    forall k | 0 <= k < |more.stages| ensures StageFits(g, loads, from, more, k) {
      if k <= n {
        assert StageFits(g, loads, from, m, k);
        ExtendedMore(m, i, p, k);
      } else {
        ExtendedMore(m, i, p, n);
      }
    }
  }

  /** Earlier stages are the beginnings of later ones. */
  lemma {:induction false} StagesGrow(g: Setting, loads: Loads, from: int, m: Making, i: nat, j: nat)
    requires Grown(g, loads, from, m) && i <= j < |m.stages|
    ensures m.stages[i].records != [] && m.stages[i].records <= m.stages[j].records
    ensures KeysOf(m.stages[i].records) <= KeysOf(m.stages[j].records)
  {
    hide Cheapest, Redirected, TakenInOrder;
    assert StageFits(g, loads, from, m, i) && StageFits(g, loads, from, m, j);
  }

  lemma {:induction false} NoStageEmpty(g: Setting, loads: Loads, from: int, m: Making)
    requires Grown(g, loads, from, m)
    ensures |m.stages| > 0 && forall i :: 0 <= i < |m.stages| ==> m.stages[i].records != []
  {
    hide Cheapest, Redirected, TakenInOrder;
    forall i | 0 <= i < |m.stages| ensures m.stages[i].records != [] {
      assert StageFits(g, loads, from, m, i);
    }
  }

  lemma {:induction false} FailuresBound(g: Setting, loads: Loads, stages: seq<Plan>)
    ensures Best(g, loads, stages) >= 0 ==> |stages| - 1 - Best(g, loads, stages) <= Failures(g, loads, stages)
  {
    if stages != [] {
      FailuresBound(g, loads, stages[..|stages| - 1]);
    }
  }

  lemma {:induction false} FailuresLast(g: Setting, loads: Loads, stages: seq<Plan>)
    requires stages != []
    ensures Failures(g, loads, stages) <= Failures(g, loads, stages[..|stages| - 1]) + 1
  {
  }
}
