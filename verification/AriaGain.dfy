/** The measure of progress of the Aria managers: how far a state is.

    Every manager and every thread has a place, counted from some phase on, and places only go up. A
    manager's step may send a message, so places of managers count double, and a message under way
    counts against them until it is delivered. What results is a number that every step but the
    raising of the stop flag makes larger. It has bounds because the nodes of a reachable state are
    close together and no message is under way twice. */
module AriaGain {
  import opened AriaBarrier

  // ---------- how far a state is ----------

  /** The number of a phase. */
  function Number(p: Phase): nat {
    2 * p.round + if p.commit then 1 else 0
  }

  /** How far a manager is through the statements of a phase. */
  function Position(n: nat, pc: Pc): nat {
    match pc
    case SignalTo(i) => 4 + i
    case Broadcast(i) => 7 + n + i
    case WaitStops(k) => 8 + 2 * n + k
    case Acks(k) => 14 + 3 * n + k
    case ExitTo(i) => 16 + 4 * n + i
    case Done => 17 + 5 * n
    case _ => Rank(pc) + if Rank(pc) > 14 then 4 * n else if Rank(pc) > 8 then 3 * n else if Rank(pc) > 4 then n else 0
  }

  /** More than any position within a phase, for each of `a` phases. */
  function Stride(n: nat, a: int): int {
    a * (18 + 5 * n)
  }

  /** A manager's place, counted from phase number `base`. */
  function Place(n: nat, base: int, phase: Phase, pc: Pc): int {
    Stride(n, Number(phase) - base) + Position(n, pc)
  }

  function ThreadPlace(base: int, w: Worker): int {
    match w
    case Exited => 21
    case At(phase, stage) => 5 * (Number(phase) - base) + StageRank(stage)
  }

  function Total(xs: seq<int>): int {
    if xs == [] then 0 else Total(xs[..|xs| - 1]) + xs[|xs| - 1]
  }

  function Places(s: State, base: int): (xs: seq<int>)
    requires Sized(s)
    ensures |xs| == |s.pc|
  {
    seq(|s.pc|, d requires 0 <= d < |s.pc| => Place(|s.pc|, base, s.phase[d], s.pc[d]))
  }

  function ThreadPlaces(base: int, ws: seq<Worker>): (xs: seq<int>)
    ensures |xs| == |ws|
  {
    seq(|ws|, w requires 0 <= w < |ws| => ThreadPlace(base, ws[w]))
  }

  function AllThreadPlaces(base: int, workers: seq<seq<Worker>>): (xs: seq<int>)
    ensures |xs| == |workers|
  {
    seq(|workers|, d requires 0 <= d < |workers| => Total(ThreadPlaces(base, workers[d])))
  }

  /** What every step adds to: places count double, because a manager's step may send a message. */
  function Gain(s: State, base: int): int
    requires Sized(s)
  {
    2 * Total(Places(s, base)) + Total(AllThreadPlaces(base, s.workers)) - |s.net|
  }

  // ---------- sums ----------

  lemma {:induction false} TotalUpdate(xs: seq<int>, i: nat, x: int)
    requires i < |xs|
    ensures Total(xs[i := x]) == Total(xs) - xs[i] + x
  {
    var last := |xs| - 1;
    if i == last {
      assert xs[i := x][..last] == xs[..last];
    } else {
      assert xs[i := x][..last] == xs[..last][i := x];
      TotalUpdate(xs[..last], i, x);
    }
  }

  // ---------- every step adds to the gain ----------

  lemma {:induction false} StrideStep(n: nat, a: int)
    ensures Stride(n, a + 1) == Stride(n, a) + 18 + 5 * n
  {
    assert (a + 1) * (18 + 5 * n) == a * (18 + 5 * n) + (18 + 5 * n);
  }

  lemma {:induction false} PositionBound(n: nat, d: nat, phase: Phase, pc: Pc)
    requires n >= 2 && d < n && PcFits(n, d, phase, pc)
    ensures Position(n, pc) <= 17 + 5 * n
  {
  }

  /** A manager's step takes it further, and it sends at most one message. */
  lemma {:induction false} PlaceNext(n: nat, base: int, d: nat, phase: Phase, pc: Pc, exit: bool)
    requires n >= 2 && d < n && PcFits(n, d, phase, pc) && !pc.Done?
    ensures Place(n, base, if EndsPhase(n, d, pc) then NextPhase(phase) else phase, NextPc(n, d, phase, pc, exit))
            > Place(n, base, phase, pc)
    ensures |Sends(n, d, phase, pc)| <= 1
  {
    hide Stride;
    if EndsPhase(n, d, pc) {
      StrideStep(n, Number(phase) - base);
      assert Number(NextPhase(phase)) == Number(phase) + 1;
    }
  }

  lemma {:induction false} PlacesNext(s: State, base: int, d: nat)
    requires Sized(s) && d < |s.pc| && ManagerEnabled(s, d)
    ensures Places(ManagerStep(s, d), base)
         == Places(s, base)[d := Place(|s.pc|, base, ManagerStep(s, d).phase[d], ManagerStep(s, d).pc[d])]
  {
    hide Place, NextPc, NextStatus, NextStarted, NextCompleted, Sends, Exits;
  }

  lemma {:induction false} ManageGains(s: State, base: int, d: nat)
    requires Sized(s) && d < |s.pc| && ManagerEnabled(s, d) && PcFits(|s.pc|, d, s.phase[d], s.pc[d])
    ensures Gain(ManagerStep(s, d), base) > Gain(s, base)
  {
    hide Place, Places, Total, AllThreadPlaces, NextPc, NextStatus, NextStarted, NextCompleted, Sends, PcFits;
    var t := ManagerStep(s, d);
    PlaceNext(|s.pc|, base, d, s.phase[d], s.pc[d], Exits(s, d));
    PlacesNext(s, base, d);
    TotalUpdate(Places(s, base), d, Place(|s.pc|, base, t.phase[d], t.pc[d]));
    assert Places(s, base)[d] == Place(|s.pc|, base, s.phase[d], s.pc[d]) by {
      PlaceAt(s, base, d);
    }
  }

  lemma {:induction false} PlaceAt(s: State, base: int, d: nat)
    requires Sized(s) && d < |s.pc|
    ensures Places(s, base)[d] == Place(|s.pc|, base, s.phase[d], s.pc[d])
  {
    hide Place;
  }

  lemma {:induction false} ThreadGains(base: int, status: Status, w: Worker)
    requires WorkerEnabled(status, w)
        && (w.At? ==> Number(w.phase) - base <= 4 && (w.stage.Poll? || Number(w.phase) - base <= 3))
    ensures ThreadPlace(base, NextWorker(status, w)) > ThreadPlace(base, w)
  {
    if w.At? {
      assert Number(NextPhase(w.phase)) == Number(w.phase) + 1;
    }
  }

  lemma {:induction false} WorkGains(s: State, base: int, d: nat, w: nat)
    requires Sized(s) && d < |s.pc| && w < |s.workers[d]|
    requires ThreadPlace(base, NextWorker(s.status[d], s.workers[d][w])) > ThreadPlace(base, s.workers[d][w])
    ensures Gain(WorkerStep(s, d, w), base) > Gain(s, base)
  {
    hide Place, Total, ThreadPlace, NextWorker, Starts, Completes;
    var t, ws := WorkerStep(s, d, w), s.workers[d];
    var x := NextWorker(s.status[d], ws[w]);
    assert Places(t, base) == Places(s, base);
    assert ThreadPlaces(base, ws[w := x]) == ThreadPlaces(base, ws)[w := ThreadPlace(base, x)];
    TotalUpdate(ThreadPlaces(base, ws), w, ThreadPlace(base, x));
    var sum := Total(ThreadPlaces(base, ws[w := x]));
    assert AllThreadPlaces(base, t.workers) == AllThreadPlaces(base, s.workers)[d := sum];
    TotalUpdate(AllThreadPlaces(base, s.workers), d, sum);
  }

  lemma {:induction false} DeliverGains(s: State, base: int, m: Message)
    requires Sized(s) && Addressed(|s.pc|, m) && m in s.net
    ensures Gain(DeliverStep(s, m), base) > Gain(s, base)
  {
    hide Place, Total, AllThreadPlaces;
    assert s.net == (s.net - multiset{m}) + multiset{m};
    assert Places(DeliverStep(s, m), base) == Places(s, base);
  }

  // ---------- bounds ----------

  lemma {:induction false} StrideBounds(n: nat, a: int)
    requires 0 <= a <= 3
    ensures 0 <= Stride(n, a) <= 54 + 15 * n
  {
    assert a == 0 || a == 1 || a == 2 || a == 3;
  }

  lemma {:induction false} StrideUpper(n: nat, a: int)
    requires a <= 3
    ensures Stride(n, a) <= 54 + 15 * n
  {
    if a < 0 {
      StrideNegative(n, a);
    } else {
      StrideBounds(n, a);
    }
  }

  lemma {:induction false} StrideNegative(n: nat, a: int)
    requires a <= 0
    ensures Stride(n, a) <= 0
    decreases -a
  {
    if a < 0 {
      StrideNegative(n, a + 1);
      StrideStep(n, a);
    }
  }

  lemma {:induction false} TotalUpper(xs: seq<int>, high: int)
    requires forall i :: 0 <= i < |xs| ==> xs[i] <= high
    ensures Total(xs) <= high * |xs|
  {
    if xs != [] {
      var last := |xs| - 1;
      TotalUpper(xs[..last], high);
      assert high * |xs| == high * last + high;
    }
  }

  lemma {:induction false} TotalLower(xs: seq<int>)
    requires forall i :: 0 <= i < |xs| ==> xs[i] >= 0
    ensures Total(xs) >= 0
  {
    if xs != [] {
      TotalLower(xs[..|xs| - 1]);
    }
  }

  // ---------- messages under way ----------

  /** All messages that node `c` can send or, for signals, receive. */
  function Row(n: nat, c: nat): (row: seq<Message>)
    ensures |row| == n + 5
  {
    seq(n, d requires 0 <= d < n => Stop(c, d))
        + [Ack(c), Signal(c, READ), Signal(c, COMMIT), Signal(c, STOP), Signal(c, EXIT)]
  }

  function Rows(n: nat, c: nat): (all: seq<Message>)
    ensures |all| == c * (n + 5)
  {
    if c == 0 then [] else
      assert c * (n + 5) == (c - 1) * (n + 5) + (n + 5);
      Rows(n, c - 1) + Row(n, c - 1)
  }

  lemma {:induction false} InRow(n: nat, m: Message)
    requires Addressed(n, m)
    ensures var c := (match m case Signal(d, _) => d case Stop(c, _) => c case Ack(c) => c);
            c < n && m in Row(n, c)
  {
    match m
    case Signal(d, v) =>
      assert Row(n, d)[n + match v case READ => 1 case COMMIT => 2 case STOP => 3 case EXIT => 4] == m;
    case Stop(c, d) =>
      assert Row(n, c)[d] == m;
    case Ack(c) =>
      assert Row(n, c)[n] == m;
  }

  lemma {:induction false} InRows(n: nat, c: nat, k: nat, m: Message)
    requires c < k && m in Row(n, c)
    ensures m in Rows(n, k)
  {
    if c < k - 1 {
      InRows(n, c, k - 1, m);
    }
  }

  lemma {:induction false} NetBound(n: nat, net: multiset<Message>)
    requires forall m :: m in net ==> Addressed(n, m) && net[m] <= 1
    ensures |net| <= n * (n + 5)
  {
    var all := multiset(Rows(n, n));
    forall m | m in net ensures net[m] <= all[m] {
      InRow(n, m);
      InRows(n, match m case Signal(d, _) => d case Stop(c, _) => c case Ack(c) => c, n, m);
      assert m in Rows(n, n);
    }
    assert net <= all;
    assert all == net + (all - net);
  }

  lemma {:induction false} OneSignal(s: State, d: nat, v: Status)
    requires Sized(s) && d < |s.pc| - 1 && SignalTokens(Now(s), Lead(s), s.phase, s.pc, s.net, s.signalQ)
    ensures s.net[Signal(d, v)] <= 1
  {
    hide Entered, Signalled, SignalValue;
    assert SignalToken(Now(s), Lead(s), s.phase[d], s.pc[d], s.net, s.signalQ[d], d);
  }

  lemma {:induction false} OneStop(s: State, c: nat, d: nat)
    requires Sized(s) && c < |s.pc| && d < |s.pc| && c != d && StopTokens(Now(s), s.phase, s.pc, s.net, s.stopQ)
    ensures s.net[Stop(c, d)] <= 1
  {
    hide Sent, Arrived;
    assert StopInTransit(Now(s), s.phase, s.pc, s.net, c, d);
  }

  lemma {:induction false} OneAck(s: State, c: nat)
    requires Sized(s) && c < |s.pc| - 1 && AckTokens(Now(s), s.phase, Lead(s), s.net, s.ackQ)
    ensures s.net[Ack(c)] <= 1
  {
    assert AckInTransit(Now(s), s.phase, s.net, c);
  }

  /** No message is under way twice. */
  lemma {:induction false} OneOfEach(s: State, m: Message)
    requires Sized(s) && Tokens(s) && m in s.net
    ensures Addressed(|s.pc|, m) && s.net[m] <= 1
  {
    hide StopTokens, SignalTokens, AckTokens, AllFollow;
    match m
    case Signal(d, v) => OneSignal(s, d, v);
    case Stop(c, d) => OneStop(s, c, d);
    case Ack(c) => OneAck(s, c);
  }

  lemma {:induction false} FewMessages(s: State)
    requires Sized(s) && Tokens(s)
    ensures |s.net| <= |s.pc| * (|s.pc| + 5)
  {
    hide Tokens, Addressed;
    forall m | m in s.net ensures Addressed(|s.pc|, m) && s.net[m] <= 1 {
      OneOfEach(s, m);
    }
    NetBound(|s.pc|, s.net);
  }

  lemma {:induction false} HasTokens(s: State, workers: nat)
    requires Inv(s, workers)
    ensures Sized(s) && Tokens(s)
  {
    hide Tokens;
  }
}
