/** The start / stop / cleanup protocol of the base manager and executor. */
module PhaseBarrier {
  import opened Counting

  // One manager and `workers` executor threads run on each of `n` nodes, the last node being the
  // coordinator. Threads of a node share a status word and two counters; nodes exchange anonymous
  // SIGNAL, STOP and ACK messages that arrive in any order.

  datatype Status = START | STOP | CLEANUP

  /** Where an executor thread stands. */
  datatype Worker = PollStart | CountStart | Looping | CountStop | PollCleanup | CountCleanup | Finished

  /** Where a manager thread stands. `WaitFlag` is the wait for the stop flag on the coordinator
      and for the first STOP elsewhere; `Acks` collects acknowledgements on the coordinator and
      sends one elsewhere. */
  datatype Pc =
    | WaitSignal | ResetFirst | ResetSecond | SetStart | SignalTo(i: nat) | WaitStarted
    | WaitFlag | SetStop | WaitStopped | Broadcast(i: nat) | WaitStops(k: nat)
    | ResetCompleted | SetCleanup | WaitCleaned | Acks(k: nat) | Done

  datatype Message = Signal(dst: nat) | Stop(src: nat, dst: nat) | Ack(src: nat)

  datatype State = State(
    pc: seq<Pc>, status: seq<Status>, started: seq<int>, completed: seq<int>, workers: seq<seq<Worker>>,
    signalQ: seq<nat>, stopQ: seq<nat>, ackQ: nat, net: multiset<Message>, stopFlag: bool)

  datatype Action = Manage(d: nat) | Work(d: nat, w: nat) | Deliver(m: Message) | RaiseStopFlag

  function WorkerRank(w: Worker): nat {
    match w
    case PollStart => 0
    case CountStart => 1
    case Looping => 2
    case CountStop => 3
    case PollCleanup => 4
    case CountCleanup => 5
    case Finished => 6
  }

  function Rank(pc: Pc): nat {
    match pc
    case WaitSignal => 0
    case ResetFirst => 1
    case ResetSecond => 2
    case SetStart => 3
    case SignalTo(_) => 4
    case WaitStarted => 5
    case WaitFlag => 6
    case SetStop => 7
    case WaitStopped => 8
    case Broadcast(_) => 9
    case WaitStops(_) => 10
    case ResetCompleted => 11
    case SetCleanup => 12
    case WaitCleaned => 13
    case Acks(_) => 14
    case Done => 15
  }

  predicate Sized(s: State) {
    && |s.pc| >= 2
    && |s.pc| == |s.status| == |s.started| == |s.completed| == |s.workers| == |s.signalQ| == |s.stopQ|
  }

  predicate IsCoordinator(n: nat, d: nat) {
    d == n - 1
  }

  /** How many STOP messages the second wait of a manager asks for. */
  function StopsWanted(n: nat, d: nat): int {
    if IsCoordinator(n, d) then n - 1 else n - 2
  }

  // ---------- steps ----------

  predicate ManagerEnabled(s: State, d: nat)
    requires Sized(s) && d < |s.pc|
  {
    var n := |s.pc|;
    match s.pc[d]
    case WaitSignal => s.signalQ[d] > 0
    case WaitStarted => s.started[d] >= |s.workers[d]|
    case WaitFlag => if IsCoordinator(n, d) then s.stopFlag else s.stopQ[d] > 0
    case WaitStopped => s.completed[d] >= |s.workers[d]|
    case WaitStops(k) => k < StopsWanted(n, d) ==> s.stopQ[d] > 0
    case WaitCleaned => s.completed[d] >= |s.workers[d]|
    case Acks(k) => IsCoordinator(n, d) && k < n - 1 ==> s.ackQ > 0
    case Done => false
    case _ => true
  }

  /** The manager's next program counter. */
  function NextPc(n: nat, d: nat, pc: Pc): Pc {
    match pc
    case WaitSignal => ResetFirst
    case ResetFirst => ResetSecond
    case ResetSecond => SetStart
    case SetStart => if IsCoordinator(n, d) then SignalTo(0) else WaitStarted
    case SignalTo(i) => if i < n then SignalTo(i + 1) else WaitStarted
    case WaitStarted => WaitFlag
    case WaitFlag => SetStop
    case SetStop => WaitStopped
    case WaitStopped => Broadcast(0)
    case Broadcast(i) => if i < n then Broadcast(i + 1) else WaitStops(0)
    case WaitStops(k) => if k < StopsWanted(n, d) then WaitStops(k + 1) else ResetCompleted
    case ResetCompleted => SetCleanup
    case SetCleanup => WaitCleaned
    case WaitCleaned => Acks(0)
    case Acks(k) => if IsCoordinator(n, d) && k < n - 1 then Acks(k + 1) else Done
    case Done => Done
  }

  function NextStatus(pc: Pc, status: Status): Status {
    match pc
    case SetStart => START
    case SetStop => STOP
    case SetCleanup => CLEANUP
    case _ => status
  }

  /** The coordinator clears `started` first, the other managers `completed`. */
  function NextStarted(n: nat, d: nat, pc: Pc, started: int): int {
    if pc == (if IsCoordinator(n, d) then ResetFirst else ResetSecond) then 0 else started
  }

  function NextCompleted(n: nat, d: nat, pc: Pc, completed: int): int {
    if pc == ResetCompleted || pc == (if IsCoordinator(n, d) then ResetSecond else ResetFirst) then 0 else completed
  }

  function Sends(n: nat, d: nat, pc: Pc): multiset<Message> {
    match pc
    case SignalTo(i) => if i < n && i != d then multiset{Signal(i)} else multiset{}
    case Broadcast(i) => if i < n && i != d then multiset{Stop(d, i)} else multiset{}
    case Acks(_) => if IsCoordinator(n, d) then multiset{} else multiset{Ack(d)}
    case _ => multiset{}
  }

  function TakesStop(n: nat, d: nat, pc: Pc): bool {
    match pc
    case WaitFlag => !IsCoordinator(n, d)
    case WaitStops(k) => k < StopsWanted(n, d)
    case _ => false
  }

  predicate TakesAck(n: nat, d: nat, pc: Pc) {
    pc.Acks? && IsCoordinator(n, d) && pc.k < n - 1
  }

  function ManagerStep(s: State, d: nat): State
    requires Sized(s) && d < |s.pc| && ManagerEnabled(s, d)
  {
    var n, pc := |s.pc|, s.pc[d];
    s.(pc := s.pc[d := NextPc(n, d, pc)],
       status := s.status[d := NextStatus(pc, s.status[d])],
       started := s.started[d := NextStarted(n, d, pc, s.started[d])],
       completed := s.completed[d := NextCompleted(n, d, pc, s.completed[d])],
       signalQ := if pc.WaitSignal? then s.signalQ[d := s.signalQ[d] - 1] else s.signalQ,
       stopQ := if TakesStop(n, d, pc) then s.stopQ[d := s.stopQ[d] - 1] else s.stopQ,
       ackQ := if TakesAck(n, d, pc) then s.ackQ - 1 else s.ackQ,
       net := s.net + Sends(n, d, pc))
  }

  predicate WorkerEnabled(status: Status, w: Worker) {
    match w
    case PollStart => status == START
    case Looping => status == STOP
    case PollCleanup => status == CLEANUP
    case Finished => false
    case _ => true
  }

  function NextWorker(w: Worker): Worker {
    match w
    case PollStart => CountStart
    case CountStart => Looping
    case Looping => CountStop
    case CountStop => PollCleanup
    case PollCleanup => CountCleanup
    case CountCleanup => Finished
    case Finished => Finished
  }

  function WorkerStep(s: State, d: nat, w: nat): State
    requires Sized(s) && d < |s.pc| && w < |s.workers[d]|
  {
    var at := s.workers[d][w];
    s.(workers := s.workers[d := s.workers[d][w := NextWorker(at)]],
       started := s.started[d := s.started[d] + if at.CountStart? then 1 else 0],
       completed := s.completed[d := s.completed[d] + if at.CountStop? || at.CountCleanup? then 1 else 0])
  }

  predicate Addressed(n: nat, m: Message) {
    match m
    case Signal(dst) => dst < n - 1
    case Stop(src, dst) => src < n && dst < n && src != dst
    case Ack(src) => src < n - 1
  }

  function DeliverStep(s: State, m: Message): State
    requires Sized(s) && Addressed(|s.pc|, m)
  {
    var t := s.(net := s.net - multiset{m});
    match m
    case Signal(dst) => t.(signalQ := s.signalQ[dst := s.signalQ[dst] + 1])
    case Stop(_, dst) => t.(stopQ := s.stopQ[dst := s.stopQ[dst] + 1])
    case Ack(_) => t.(ackQ := s.ackQ + 1)
  }

  predicate Enabled(s: State, a: Action)
    requires Sized(s)
  {
    match a
    case Manage(d) => d < |s.pc| && ManagerEnabled(s, d)
    case Work(d, w) => d < |s.pc| && w < |s.workers[d]| && WorkerEnabled(s.status[d], s.workers[d][w])
    case Deliver(m) => m in s.net && Addressed(|s.pc|, m)
    case RaiseStopFlag => !s.stopFlag
  }

  function Next(s: State, a: Action): (t: State)
    requires Sized(s) && Enabled(s, a)
    ensures Sized(t) && |t.pc| == |s.pc|
  {
    match a
    case Manage(d) => ManagerStep(s, d)
    case Work(d, w) => WorkerStep(s, d, w)
    case Deliver(m) => DeliverStep(s, m)
    case RaiseStopFlag => s.(stopFlag := true)
  }

  ghost predicate Step(s: State, t: State) {
    Sized(s) && exists a :: Enabled(s, a) && t == Next(s, a)
  }

  /** All managers at their first statement, all executors polling, the status words STOP, the
      queues empty; the two counters hold anything. */
  predicate Init(s: State, n: nat, workers: nat) {
    && n >= 2 && Sized(s) && |s.pc| == n && s.ackQ == 0 && s.net == multiset{} && !s.stopFlag
    && forall d :: 0 <= d < n ==>
         && s.pc[d] == (if IsCoordinator(n, d) then ResetFirst else WaitSignal)
         && s.status[d] == STOP && s.signalQ[d] == 0 && s.stopQ[d] == 0
         && |s.workers[d]| == workers && forall w :: 0 <= w < workers ==> s.workers[d][w] == PollStart
  }

  ghost predicate IsRun(run: seq<State>, n: nat, workers: nat) {
    && |run| > 0 && Init(run[0], n, workers)
    && forall i :: 0 < i < |run| ==> Step(run[i - 1], run[i])
  }

  // ---------- what holds on one node ----------

  /** The threads that have come to `rank` or past it. */
  function Past(rank: nat): Worker -> bool {
    w => WorkerRank(w) >= rank
  }

  /** The threads of a node stand between these ranks while its manager stands at `pc`. */
  function Lo(pc: Pc): nat {
    var r := Rank(pc);
    if r <= 5 then 0 else if r <= 8 then 2 else if r <= 13 then 4 else 6
  }

  function Hi(pc: Pc): nat {
    var r := Rank(pc);
    if r <= 3 then 0 else if r <= 7 then 2 else if r <= 12 then 4 else 6
  }

  function StatusAt(pc: Pc): Status {
    var r := Rank(pc);
    if r <= 3 then STOP else if r <= 7 then START else if r <= 12 then STOP else CLEANUP
  }

  /** What one node's manager, status word, counters and threads agree on. */
  ghost predicate Local(n: nat, d: nat, pc: Pc, status: Status, started: int, completed: int, ws: seq<Worker>) {
    && status == StatusAt(pc)
    && (forall w :: 0 <= w < |ws| ==> Lo(pc) <= WorkerRank(ws[w]) <= Hi(pc))
    && (pc == ResetSecond ==> (if IsCoordinator(n, d) then started else completed) == 0)
    && (Rank(pc) >= 3 ==> started == Count(ws, Past(2)))
    && (3 <= Rank(pc) <= 11 ==> completed == Count(ws, Past(4)))
    && (Rank(pc) >= 12 ==> completed == Count(ws, Past(6)))
  }

  predicate PcFits(n: nat, d: nat, pc: Pc) {
    match pc
    case WaitSignal => !IsCoordinator(n, d)
    case SignalTo(i) => IsCoordinator(n, d) && i <= n
    case Broadcast(i) => i <= n
    case WaitStops(k) => k <= StopsWanted(n, d)
    case Acks(k) => if IsCoordinator(n, d) then k <= n - 1 else k == 0
    case _ => true
  }

  lemma {:induction false} LocalWork(n: nat, d: nat, pc: Pc, status: Status, started: int, completed: int,
          ws: seq<Worker>, w: nat)
    requires Local(n, d, pc, status, started, completed, ws) && w < |ws| && WorkerEnabled(status, ws[w])
    ensures Local(n, d, pc, status,
                  started + if ws[w].CountStart? then 1 else 0,
                  completed + if ws[w].CountStop? || ws[w].CountCleanup? then 1 else 0,
                  ws[w := NextWorker(ws[w])])
  {
    CountUpdate(ws, w, NextWorker(ws[w]), Past(2));
    CountUpdate(ws, w, NextWorker(ws[w]), Past(4));
    CountUpdate(ws, w, NextWorker(ws[w]), Past(6));
  }

  /** What a manager knows of its threads when it moves on. */
  lemma {:induction false} Passed(pc: Pc, started: int, completed: int, ws: seq<Worker>)
    requires forall w :: 0 <= w < |ws| ==> Lo(pc) <= WorkerRank(ws[w]) <= Hi(pc)
    requires pc.WaitStarted? ==> started == Count(ws, Past(2)) >= |ws|
    requires pc.WaitStopped? ==> completed == Count(ws, Past(4)) >= |ws|
    requires pc.WaitCleaned? ==> completed == Count(ws, Past(6)) >= |ws|
    ensures forall n: nat, d: nat, w :: 0 <= w < |ws| ==>
        Lo(NextPc(n, d, pc)) <= WorkerRank(ws[w]) <= Hi(NextPc(n, d, pc))
  {
    CountAll(ws, Past(if pc.WaitStarted? then 2 else if pc.WaitStopped? then 4 else 6));
  }

  lemma {:induction false} NothingCounted(pc: Pc, ws: seq<Worker>)
    requires forall w :: 0 <= w < |ws| ==> Lo(pc) <= WorkerRank(ws[w]) <= Hi(pc)
    ensures Rank(pc) <= 3 ==> Count(ws, Past(2)) == Count(ws, Past(4)) == 0
    ensures Rank(pc) <= 12 ==> Count(ws, Past(6)) == 0
  {
    if Rank(pc) <= 3 {
      CountNone(ws, Past(2));
      CountNone(ws, Past(4));
    }
    if Rank(pc) <= 12 {
      CountNone(ws, Past(6));
    }
  }

  lemma {:induction false} LocalManage(n: nat, d: nat, pc: Pc, status: Status, started: int, completed: int,
          ws: seq<Worker>)
    requires Local(n, d, pc, status, started, completed, ws)
    requires pc.WaitStarted? ==> started >= |ws|
    requires pc.WaitStopped? || pc.WaitCleaned? ==> completed >= |ws|
    ensures Local(n, d, NextPc(n, d, pc), NextStatus(pc, status), NextStarted(n, d, pc, started),
        NextCompleted(n, d, pc, completed), ws)
  {
    hide Count, Lo, Hi;
    Passed(pc, started, completed, ws);
    NothingCounted(pc, ws);
  }

  // ---------- what holds across nodes ----------

  /** Node `c`'s manager has sent its STOP to node `d`. */
  predicate Sent(pc: Pc, d: nat) {
    Rank(pc) > 9 || (pc.Broadcast? && d < pc.i)
  }

  predicate Signalled(pc: Pc, d: nat) {
    Rank(pc) > 4 || (pc.SignalTo? && d < pc.i)
  }

  /** The nodes whose STOP has reached node `d`. */
  ghost function Arrived(pc: seq<Pc>, net: multiset<Message>, d: nat): (a: set<nat>)
    ensures a <= Nodes(|pc|) && d !in a
  {
    set c | c in Nodes(|pc|) && c != d && Sent(pc[c], d) && net[Stop(c, d)] == 0
  }

  /** How many STOP messages node `d`'s manager has consumed. */
  function StopsTaken(n: nat, d: nat, pc: Pc): int {
    if IsCoordinator(n, d) then
      (if pc.WaitStops? then pc.k else if Rank(pc) > 10 then n - 1 else 0)
    else
      (if pc.WaitStops? then pc.k + 1 else if Rank(pc) > 10 then n - 1 else if Rank(pc) > 6 then 1 else 0)
  }

  /** No STOP is in transit unless it was sent, and none twice. */
  ghost predicate StopInTransit(pc: seq<Pc>, net: multiset<Message>, c: nat, d: nat)
    requires c < |pc|
  {
    net[Stop(c, d)] <= if Sent(pc[c], d) then 1 else 0
  }

  ghost predicate StopTokens(pc: seq<Pc>, net: multiset<Message>, stopQ: seq<nat>) {
    && |stopQ| == |pc|
    && (forall c, d :: 0 <= c < |pc| && 0 <= d < |pc| && c != d ==> StopInTransit(pc, net, c, d))
    && forall d :: 0 <= d < |pc| ==> |Arrived(pc, net, d)| == stopQ[d] + StopsTaken(|pc|, d, pc[d])
  }

  ghost predicate SignalToken(pc: seq<Pc>, net: multiset<Message>, signalQ: seq<nat>, d: nat)
    requires d < |pc| == |signalQ|
  {
    net[Signal(d)] + signalQ[d] + (if pc[d].WaitSignal? then 0 else 1) == if Signalled(pc[|pc| - 1], d) then 1 else 0
  }

  /** Every manager but the coordinator's gets one SIGNAL. */
  ghost predicate SignalTokens(pc: seq<Pc>, net: multiset<Message>, signalQ: seq<nat>) {
    && |signalQ| == |pc| > 0 && signalQ[|pc| - 1] == 0
    && forall d :: 0 <= d < |pc| - 1 ==> SignalToken(pc, net, signalQ, d)
  }

  ghost function Acknowledged(pc: seq<Pc>, net: multiset<Message>): (a: set<nat>)
    ensures a <= Nodes(|pc|) && |pc| - 1 !in a
  {
    set c | c in Nodes(|pc|) && c != |pc| - 1 && pc[c].Done? && net[Ack(c)] == 0
  }

  function AcksTaken(n: nat, pc: Pc): int {
    if pc.Acks? then pc.k else if pc.Done? then n - 1 else 0
  }

  ghost predicate AckInTransit(pc: seq<Pc>, net: multiset<Message>, c: nat)
    requires c < |pc|
  {
    net[Ack(c)] <= if pc[c].Done? then 1 else 0
  }

  ghost predicate AckTokens(pc: seq<Pc>, net: multiset<Message>, ackQ: nat) {
    && |pc| > 0
    && (forall c :: 0 <= c < |pc| - 1 ==> AckInTransit(pc, net, c))
    && |Acknowledged(pc, net)| == ackQ + AcksTaken(|pc|, pc[|pc| - 1])
  }

  /** Nobody stops before the coordinator has, and the coordinator not before the stop flag is up. */
  ghost predicate Caused(pc: seq<Pc>, stopFlag: bool) {
    && |pc| > 0
    && (Rank(pc[|pc| - 1]) > 6 ==> stopFlag)
    && forall d :: 0 <= d < |pc| && Rank(pc[d]) > 6 && d < |pc| - 1 ==> Rank(pc[|pc| - 1]) >= 9
  }

  ghost predicate NodesOk(s: State, workers: nat) {
    && Sized(s)
    && forall d :: 0 <= d < |s.pc| ==>
         && |s.workers[d]| == workers && PcFits(|s.pc|, d, s.pc[d])
         && Local(|s.pc|, d, s.pc[d], s.status[d], s.started[d], s.completed[d], s.workers[d])
  }

  ghost predicate Inv(s: State, workers: nat) {
    && NodesOk(s, workers)
    && (forall m :: m in s.net ==> Addressed(|s.pc|, m))
    && StopTokens(s.pc, s.net, s.stopQ)
    && SignalTokens(s.pc, s.net, s.signalQ)
    && AckTokens(s.pc, s.net, s.ackQ)
    && Caused(s.pc, s.stopFlag)
  }

  // ---------- every step keeps it ----------

  lemma {:induction false} SentNext(n: nat, d: nat, pc: Pc, e: nat)
    requires PcFits(n, d, pc) && d < n && e < n && e != d
    ensures Sent(NextPc(n, d, pc), e) <==> Sent(pc, e) || Stop(d, e) in Sends(n, d, pc)
    ensures Sends(n, d, pc)[Stop(d, e)] <= 1 && (Stop(d, e) in Sends(n, d, pc) ==> !Sent(pc, e))
    ensures forall c :: c != d ==> Sends(n, d, pc)[Stop(c, e)] == 0
  {
  }

  lemma {:induction false} TakenNext(n: nat, d: nat, pc: Pc)
    requires n >= 2 && PcFits(n, d, pc) && d < n
    ensures StopsTaken(n, d, NextPc(n, d, pc)) == StopsTaken(n, d, pc) + if TakesStop(n, d, pc) then 1 else 0
    ensures PcFits(n, d, NextPc(n, d, pc))
  {
  }

  lemma {:induction false} ManageArrived(pc: seq<Pc>, net: multiset<Message>, d: nat, e: nat)
    requires d < |pc| && e < |pc| && PcFits(|pc|, d, pc[d])
    requires d != e ==> StopInTransit(pc, net, d, e)
    ensures Arrived(pc[d := NextPc(|pc|, d, pc[d])], net + Sends(|pc|, d, pc[d]), e) == Arrived(pc, net, e)
  {
    hide NextPc, Sends, Sent, PcFits;
    if d != e {
      SentNext(|pc|, d, pc[d], e);
    } else {
      forall c | c != d ensures Sends(|pc|, d, pc[d])[Stop(c, e)] == 0 {
        OwnStopsOnly(|pc|, d, pc[d], c, e);
      }
    }
  }

  lemma {:induction false} OwnStopsOnly(n: nat, d: nat, pc: Pc, c: nat, e: nat)
    requires c != d
    ensures Sends(n, d, pc)[Stop(c, e)] == 0
  {
  }

  lemma {:induction false} ManageStops(pc: seq<Pc>, net: multiset<Message>, stopQ: seq<nat>, d: nat)
    requires StopTokens(pc, net, stopQ) && |pc| >= 2 && d < |pc| && PcFits(|pc|, d, pc[d])
    requires TakesStop(|pc|, d, pc[d]) ==> stopQ[d] > 0
    ensures StopTokens(pc[d := NextPc(|pc|, d, pc[d])], net + Sends(|pc|, d, pc[d]),
                       if TakesStop(|pc|, d, pc[d]) then stopQ[d := stopQ[d] - 1] else stopQ)
  {
    hide NextPc, Sends, Sent, PcFits, Arrived, TakesStop, StopsTaken;
    var n := |pc|;
    var pc1, net1 := pc[d := NextPc(n, d, pc[d])], net + Sends(n, d, pc[d]);
    forall c, e | 0 <= c < n && 0 <= e < n && c != e ensures StopInTransit(pc1, net1, c, e) {
      assert StopInTransit(pc, net, c, e);
      if c == d {
        SentNext(n, d, pc[d], e);
      } else {
        OwnStopsOnly(n, d, pc[d], c, e);
      }
    }
    TakenNext(n, d, pc[d]);
    forall e | 0 <= e < n ensures Arrived(pc1, net1, e) == Arrived(pc, net, e) {
      assert d != e ==> StopInTransit(pc, net, d, e);
      ManageArrived(pc, net, d, e);
    }
  }

  lemma {:induction false} SignalledNext(n: nat, d: nat, pc: Pc, e: nat)
    requires n >= 2 && d < n && PcFits(n, d, pc) && e < n - 1
    ensures IsCoordinator(n, d) ==>
              && (Signalled(NextPc(n, d, pc), e) <==> Signalled(pc, e) || Signal(e) in Sends(n, d, pc))
              && (Signal(e) in Sends(n, d, pc) ==> !Signalled(pc, e)) && Sends(n, d, pc)[Signal(e)] <= 1
    ensures !IsCoordinator(n, d) ==> Sends(n, d, pc)[Signal(e)] == 0
    ensures !NextPc(n, d, pc).WaitSignal? && (pc.WaitSignal? ==> !IsCoordinator(n, d))
  {
  }

  lemma {:induction false} ManageSignals(pc: seq<Pc>, net: multiset<Message>, signalQ: seq<nat>, d: nat)
    requires SignalTokens(pc, net, signalQ) && |pc| >= 2 && d < |pc| && PcFits(|pc|, d, pc[d])
    requires pc[d].WaitSignal? ==> signalQ[d] > 0
    ensures SignalTokens(pc[d := NextPc(|pc|, d, pc[d])], net + Sends(|pc|, d, pc[d]),
                         if pc[d].WaitSignal? then signalQ[d := signalQ[d] - 1] else signalQ)
  {
    hide NextPc, Sends, Signalled, PcFits;
    var n := |pc|;
    var pc1, net1 := pc[d := NextPc(n, d, pc[d])], net + Sends(n, d, pc[d]);
    var q1 := if pc[d].WaitSignal? then signalQ[d := signalQ[d] - 1] else signalQ;
    forall e | 0 <= e < n - 1 ensures SignalToken(pc1, net1, q1, e) {
      assert SignalToken(pc, net, signalQ, e);
      SignalledNext(n, d, pc[d], e);
    }
  }

  lemma {:induction false} AckNext(n: nat, d: nat, pc: Pc, c: nat)
    requires n >= 2 && d < n && PcFits(n, d, pc)
    ensures Sends(n, d, pc)[Ack(c)] == if pc.Acks? && !IsCoordinator(n, d) && c == d then 1 else 0
    ensures pc.Acks? && !IsCoordinator(n, d) ==> NextPc(n, d, pc).Done?
    ensures !IsCoordinator(n, d) ==> (NextPc(n, d, pc).Done? <==> pc.Acks? || pc.Done?)
    ensures IsCoordinator(n, d) ==>
        AcksTaken(n, NextPc(n, d, pc)) == AcksTaken(n, pc) + if TakesAck(n, d, pc) then 1 else 0
  {
  }

  lemma {:induction false} ManageAcks(pc: seq<Pc>, net: multiset<Message>, ackQ: nat, d: nat)
    requires AckTokens(pc, net, ackQ) && |pc| >= 2 && d < |pc| && PcFits(|pc|, d, pc[d])
    requires TakesAck(|pc|, d, pc[d]) ==> ackQ > 0
    ensures AckTokens(pc[d := NextPc(|pc|, d, pc[d])], net + Sends(|pc|, d, pc[d]),
        if TakesAck(|pc|, d, pc[d]) then ackQ - 1 else ackQ)
  {
    hide NextPc, Sends, PcFits;
    var n := |pc|;
    var pc1, net1 := pc[d := NextPc(n, d, pc[d])], net + Sends(n, d, pc[d]);
    forall c | 0 <= c < n - 1 ensures AckInTransit(pc1, net1, c) {
      assert AckInTransit(pc, net, c);
      AckNext(n, d, pc[d], c);
    }
    forall c | 0 <= c < n - 1 ensures c in Acknowledged(pc1, net1) <==> c in Acknowledged(pc, net) {
      assert AckInTransit(pc, net, c);
      AckNext(n, d, pc[d], c);
    }
    AckNext(n, d, pc[d], 0);
    assert Acknowledged(pc1, net1) == Acknowledged(pc, net);
  }

  /** A STOP in node `d`'s queue before any was consumed came from a node that had stopped. */
  lemma {:induction false} StopHasSender(pc: seq<Pc>, net: multiset<Message>, stopQ: seq<nat>, d: nat)
    requires StopTokens(pc, net, stopQ) && d < |pc| && stopQ[d] > 0 && StopsTaken(|pc|, d, pc[d]) >= 0
    ensures exists c :: 0 <= c < |pc| && c != d && Rank(pc[c]) >= 9
  {
    var a := Arrived(pc, net, d);
    assert |a| > 0;
    var c :| c in a;
    assert Rank(pc[c]) >= 9;
  }

  lemma {:induction false} RankNext(n: nat, d: nat, pc: Pc)
    ensures Rank(pc) <= Rank(NextPc(n, d, pc))
    ensures Rank(NextPc(n, d, pc)) > 6 ==> Rank(pc) > 6 || pc.WaitFlag?
    ensures Rank(pc) >= 9 ==> Rank(NextPc(n, d, pc)) >= 9
  {
  }

  lemma {:induction false} ManageCaused(s: State, d: nat)
    requires Sized(s) && d < |s.pc| && ManagerEnabled(s, d)
    requires StopTokens(s.pc, s.net, s.stopQ) && Caused(s.pc, s.stopFlag)
    ensures Caused(s.pc[d := NextPc(|s.pc|, d, s.pc[d])], s.stopFlag)
  {
    hide NextPc, StopTokens, Rank;
    var n := |s.pc|;
    RankNext(n, d, s.pc[d]);
    if s.pc[d].WaitFlag? && !IsCoordinator(n, d) {
      FirstStop(s.pc, s.net, s.stopQ, d);
      assert s.stopQ[d] > 0 && Rank(s.pc[n - 1]) >= 9;
    }
  }

  /** Whoever sent the first STOP that reached node `d`, the coordinator had stopped by then. */
  lemma {:induction false} FirstStop(pc: seq<Pc>, net: multiset<Message>, stopQ: seq<nat>, d: nat)
    requires StopTokens(pc, net, stopQ) && d < |pc| && pc[d].WaitFlag? && stopQ[d] > 0
    requires forall c :: 0 <= c < |pc| && Rank(pc[c]) > 6 && c < |pc| - 1 ==> Rank(pc[|pc| - 1]) >= 9
    ensures Rank(pc[|pc| - 1]) >= 9
  {
    hide StopTokens;
    StopHasSender(pc, net, stopQ, d);
    var c :| 0 <= c < |pc| && c != d && Rank(pc[c]) >= 9;
    assert c < |pc| - 1 ==> Rank(pc[c]) > 6;
  }

  lemma {:induction false} SendsAddressed(n: nat, d: nat, pc: Pc, m: Message)
    requires PcFits(n, d, pc) && d < n && m in Sends(n, d, pc)
    ensures Addressed(n, m)
  {
  }

  lemma {:induction false} ManageKeepsInv(s: State, workers: nat, d: nat)
    requires Inv(s, workers) && Enabled(s, Manage(d))
    ensures Inv(ManagerStep(s, d), workers)
  {
    hide Local, StopTokens, SignalTokens, AckTokens, Caused, PcFits, NextPc, NextStatus, NextStarted, NextCompleted;
    var n, t := |s.pc|, ManagerStep(s, d);
    LocalManage(n, d, s.pc[d], s.status[d], s.started[d], s.completed[d], s.workers[d]);
    TakenNext(n, d, s.pc[d]);
    ManageStops(s.pc, s.net, s.stopQ, d);
    ManageSignals(s.pc, s.net, s.signalQ, d);
    ManageAcks(s.pc, s.net, s.ackQ, d);
    ManageCaused(s, d);
    forall m | m in Sends(n, d, s.pc[d]) ensures Addressed(n, m) {
      SendsAddressed(n, d, s.pc[d], m);
    }
  }

  lemma {:induction false} WorkKeepsInv(s: State, workers: nat, d: nat, w: nat)
    requires Inv(s, workers) && Enabled(s, Work(d, w))
    ensures Inv(WorkerStep(s, d, w), workers)
  {
    hide Local, StopTokens, SignalTokens, AckTokens, Caused, PcFits;
    LocalWork(|s.pc|, d, s.pc[d], s.status[d], s.started[d], s.completed[d], s.workers[d], w);
  }

  lemma {:induction false} ArrivedGrows(pc: seq<Pc>, net: multiset<Message>, c: nat, d: nat, e: nat)
    requires c < |pc| && d < |pc| && c != d && Stop(c, d) in net && StopInTransit(pc, net, c, d)
    ensures |Arrived(pc, net - multiset{Stop(c, d)}, e)| == |Arrived(pc, net, e)| + if e == d then 1 else 0
  {
    var net1 := net - multiset{Stop(c, d)};
    if e == d {
      assert Arrived(pc, net1, d) == Arrived(pc, net, d) + {c};
    } else {
      assert Arrived(pc, net1, e) == Arrived(pc, net, e);
    }
  }

  lemma {:induction false} DeliverStop(pc: seq<Pc>, net: multiset<Message>, stopQ: seq<nat>, c: nat, d: nat)
    requires StopTokens(pc, net, stopQ) && c < |pc| && d < |pc| && c != d && Stop(c, d) in net
    ensures StopTokens(pc, net - multiset{Stop(c, d)}, stopQ[d := stopQ[d] + 1])
  {
    hide Arrived, Sent, StopsTaken;
    var net1, stopQ1 := net - multiset{Stop(c, d)}, stopQ[d := stopQ[d] + 1];
    assert StopInTransit(pc, net, c, d);
    forall a, e | 0 <= a < |pc| && 0 <= e < |pc| && a != e ensures StopInTransit(pc, net1, a, e) {
      assert StopInTransit(pc, net, a, e);
    }
    forall e | 0 <= e < |pc| ensures |Arrived(pc, net1, e)| == stopQ1[e] + StopsTaken(|pc|, e, pc[e]) {
      ArrivedGrows(pc, net, c, d, e);
    }
  }

  lemma {:induction false} DeliverOther(pc: seq<Pc>, net: multiset<Message>, stopQ: seq<nat>, m: Message)
    requires StopTokens(pc, net, stopQ) && !m.Stop?
    ensures StopTokens(pc, net - multiset{m}, stopQ)
  {
    var net1 := net - multiset{m};
    forall a, e | 0 <= a < |pc| && 0 <= e < |pc| && a != e ensures StopInTransit(pc, net1, a, e) {
      assert StopInTransit(pc, net, a, e);
    }
    forall e | 0 <= e < |pc| ensures Arrived(pc, net1, e) == Arrived(pc, net, e) {
    }
  }

  lemma {:induction false} DeliverSignals(pc: seq<Pc>, net: multiset<Message>, signalQ: seq<nat>, m: Message)
    requires SignalTokens(pc, net, signalQ) && m in net && Addressed(|pc|, m)
    ensures SignalTokens(pc, net - multiset{m}, if m.Signal? then signalQ[m.dst := signalQ[m.dst] + 1] else signalQ)
  {
    var q1 := if m.Signal? then signalQ[m.dst := signalQ[m.dst] + 1] else signalQ;
    forall e | 0 <= e < |pc| - 1 ensures SignalToken(pc, net - multiset{m}, q1, e) {
      assert SignalToken(pc, net, signalQ, e);
    }
  }

  lemma {:induction false} DeliverAcks(pc: seq<Pc>, net: multiset<Message>, ackQ: nat, m: Message)
    requires AckTokens(pc, net, ackQ) && m in net && Addressed(|pc|, m)
    ensures AckTokens(pc, net - multiset{m}, if m.Ack? then ackQ + 1 else ackQ)
  {
    var net1 := net - multiset{m};
    forall c | 0 <= c < |pc| - 1 ensures AckInTransit(pc, net1, c) {
      assert AckInTransit(pc, net, c);
    }
    if m.Ack? {
      assert AckInTransit(pc, net, m.src);
      assert Acknowledged(pc, net1) == Acknowledged(pc, net) + {m.src};
    } else {
      assert Acknowledged(pc, net1) == Acknowledged(pc, net);
    }
  }

  lemma {:induction false} DeliverKeepsInv(s: State, workers: nat, m: Message)
    requires Inv(s, workers) && Enabled(s, Deliver(m))
    ensures Inv(DeliverStep(s, m), workers)
  {
    hide Local, StopTokens, SignalTokens, AckTokens, Caused, PcFits;
    if m.Stop? {
      DeliverStop(s.pc, s.net, s.stopQ, m.src, m.dst);
    } else {
      DeliverOther(s.pc, s.net, s.stopQ, m);
    }
    DeliverSignals(s.pc, s.net, s.signalQ, m);
    DeliverAcks(s.pc, s.net, s.ackQ, m);
  }

  lemma {:induction false} InitHasInv(s: State, n: nat, workers: nat)
    requires Init(s, n, workers)
    ensures Inv(s, workers)
  {
    hide StopTokens, SignalTokens, AckTokens;
    InitTokens(s, n, workers);
  }

  lemma {:induction false} InitTokens(s: State, n: nat, workers: nat)
    requires Init(s, n, workers)
    ensures StopTokens(s.pc, s.net, s.stopQ) && SignalTokens(s.pc, s.net, s.signalQ) && AckTokens(s.pc, s.net, s.ackQ)
  {
    hide Arrived, Acknowledged;
    forall d | 0 <= d < n ensures Arrived(s.pc, s.net, d) == {} && StopsTaken(n, d, s.pc[d]) == 0 {
      NoneArrived(s, n, workers, d);
    }
    NoneArrived(s, n, workers, 0);
    forall d | 0 <= d < n - 1 ensures SignalToken(s.pc, s.net, s.signalQ, d) {
    }
    forall c, d | 0 <= c < n && 0 <= d < n && c != d ensures StopInTransit(s.pc, s.net, c, d) {
    }
  }

  lemma {:induction false} NoneArrived(s: State, n: nat, workers: nat, d: nat)
    requires Init(s, n, workers) && d < n
    ensures Arrived(s.pc, s.net, d) == {} && StopsTaken(n, d, s.pc[d]) == 0 && Acknowledged(s.pc, s.net) == {}
  {
  }

  lemma {:induction false} StepKeepsInv(s: State, t: State, workers: nat)
    requires Inv(s, workers) && Step(s, t)
    ensures Inv(t, workers) && |t.pc| == |s.pc|
  {
    hide Inv, ManagerStep, WorkerStep, DeliverStep;
    SizedByInv(s, workers);
    var a :| Enabled(s, a) && t == Next(s, a);
    match a
    case Manage(d) => ManageKeepsInv(s, workers, d);
    case Work(d, w) => WorkKeepsInv(s, workers, d, w);
    case Deliver(m) => DeliverKeepsInv(s, workers, m);
    case RaiseStopFlag => FlagKeepsInv(s, workers);
  }

  lemma {:induction false} SizedByInv(s: State, workers: nat)
    requires Inv(s, workers)
    ensures Sized(s)
  {
  }

  lemma {:induction false} FlagKeepsInv(s: State, workers: nat)
    requires Inv(s, workers)
    ensures Inv(s.(stopFlag := true), workers)
  {
  }

  /** The invariant holds all along every run. */
  lemma {:induction false} RunKeepsInv(run: seq<State>, n: nat, workers: nat, i: nat)
    requires IsRun(run, n, workers) && i < |run|
    ensures Sized(run[i]) && Inv(run[i], workers) && |run[i].pc| == n
  {
    if i == 0 {
      InitHasInv(run[0], n, workers);
    } else {
      RunKeepsInv(run, n, workers, i - 1);
      StepKeepsInv(run[i - 1], run[i], workers);
    }
  }

  // ---------- safety ----------

  /** A manager past its second wait has consumed exactly one STOP from every other node, and
      its queue is empty. */
  lemma {:induction false} AllStopsTaken(pc: seq<Pc>, net: multiset<Message>, stopQ: seq<nat>, d: nat)
    requires StopTokens(pc, net, stopQ) && d < |pc| && Rank(pc[d]) > 10
    ensures stopQ[d] == 0
    ensures forall c :: 0 <= c < |pc| && c != d ==> Sent(pc[c], d) && net[Stop(c, d)] == 0
  {
    var a := Arrived(pc, net, d);
    AllOthers(a, |pc|, d);
    assert |a| == stopQ[d] + StopsTaken(|pc|, d, pc[d]);
    forall c | 0 <= c < |pc| && c != d ensures Sent(pc[c], d) && net[Stop(c, d)] == 0 {
      assert c in a;
    }
  }

  lemma {:induction false} InvParts(s: State, workers: nat)
    requires Inv(s, workers)
    ensures Sized(s) && StopTokens(s.pc, s.net, s.stopQ) && SignalTokens(s.pc, s.net, s.signalQ)
    ensures AckTokens(s.pc, s.net, s.ackQ)
    ensures Caused(s.pc, s.stopFlag)
    ensures forall m :: m in s.net ==> Addressed(|s.pc|, m)
  {
  }

  lemma {:induction false} ThreadsAt(s: State, workers: nat, d: nat)
    requires Inv(s, workers) && d < |s.pc|
    ensures s.status[d] == StatusAt(s.pc[d]) && |s.workers[d]| == workers
    ensures forall w :: 0 <= w < workers ==> Lo(s.pc[d]) <= WorkerRank(s.workers[d][w]) <= Hi(s.pc[d])
  {
  }

  lemma {:induction false} CleanupMeansStopped(s: State, workers: nat, d: nat, c: nat)
    requires Inv(s, workers) && d < |s.pc| && s.status[d] == CLEANUP && c < |s.pc|
    ensures forall w :: 0 <= w < |s.workers[c]| ==> WorkerRank(s.workers[c][w]) >= 4
  {
    hide Inv, StopTokens, SignalTokens, AckTokens, Caused;
    InvParts(s, workers);
    ThreadsAt(s, workers, d);
    AllStopsTaken(s.pc, s.net, s.stopQ, d);
    ThreadsAt(s, workers, c);
  }

  /** In every run a manager past its second wait has consumed exactly one STOP from every other
      node: each has sent it, none is in transit, and the queue is empty. */
  lemma {:induction false} StopsAreExact(run: seq<State>, n: nat, workers: nat, i: nat, d: nat)
    requires IsRun(run, n, workers) && i < |run| && d < n
    ensures |run[i].pc| == |run[i].stopQ| == n
    ensures Rank(run[i].pc[d]) > 10 ==>
              && run[i].stopQ[d] == 0
              && forall c :: 0 <= c < n && c != d ==> Sent(run[i].pc[c], d) && run[i].net[Stop(c, d)] == 0
  {
    hide Inv, IsRun, StopTokens, SignalTokens, AckTokens, Caused, Sent;
    RunKeepsInv(run, n, workers, i);
    InvParts(run[i], workers);
    if Rank(run[i].pc[d]) > 10 {
      AllStopsTaken(run[i].pc, run[i].net, run[i].stopQ, d);
    }
  }

  /** CLEANUP is published nowhere before every thread on every node has left its execution loop
      and been counted. */
  lemma {:induction false} NoEarlyCleanup(run: seq<State>, n: nat, workers: nat, i: nat, d: nat)
    requires IsRun(run, n, workers) && i < |run| && d < n
    ensures |run[i].pc| == |run[i].status| == |run[i].workers| == n
    ensures run[i].status[d] == CLEANUP ==>
              forall c, w :: 0 <= c < n && 0 <= w < |run[i].workers[c]| ==> WorkerRank(run[i].workers[c][w]) >= 4
  {
    hide Inv, IsRun;
    RunKeepsInv(run, n, workers, i);
    SizedByInv(run[i], workers);
    if run[i].status[d] == CLEANUP {
      forall c | 0 <= c < n ensures forall w :: 0 <= w < |run[i].workers[c]| ==> WorkerRank(run[i].workers[c][w]) >= 4 {
        CleanupMeansStopped(run[i], workers, d, c);
      }
    }
  }

  /** The thread has read this status and acted on it. */
  predicate Saw(w: Worker, status: Status) {
    match status
    case START => WorkerRank(w) >= 1
    case STOP => WorkerRank(w) >= 3
    case CLEANUP => WorkerRank(w) >= 5
  }

  /** The status word of a node goes through STOP, START, STOP, CLEANUP, and from START on it is
      overwritten only after every thread of the node has read it. */
  lemma {:induction false} StatusIsSeen(run: seq<State>, n: nat, workers: nat, i: nat, d: nat)
    requires IsRun(run, n, workers) && i + 1 < |run| && d < n
    ensures |run[i].status| == |run[i].workers| == |run[i + 1].status| == n
    ensures run[i].status[d] != run[i + 1].status[d] ==>
              || (run[i].status[d] == STOP && run[i + 1].status[d] == START
                  && forall w :: 0 <= w < |run[i].workers[d]| ==> run[i].workers[d][w] == PollStart)
              || (run[i].status[d] == START && run[i + 1].status[d] == STOP
                  && forall w :: 0 <= w < |run[i].workers[d]| ==> Saw(run[i].workers[d][w], START))
              || (run[i].status[d] == STOP && run[i + 1].status[d] == CLEANUP
                  && forall w :: 0 <= w < |run[i].workers[d]| ==> Saw(run[i].workers[d][w], STOP))
  {
    hide IsRun, Inv, Next, Enabled;
    RunKeepsInv(run, n, workers, i);
    StepOfRun(run, n, workers, i);
    var s, t := run[i], run[i + 1];
    SizedByInv(s, workers);
    ThreadsAt(s, workers, d);
    var a :| Enabled(s, a) && t == Next(s, a);
    StatusChange(s, a, d);
  }

  lemma {:induction false} StepOfRun(run: seq<State>, n: nat, workers: nat, i: nat)
    requires IsRun(run, n, workers) && i + 1 < |run|
    ensures Step(run[i], run[i + 1])
  {
    assert Step(run[i + 1 - 1], run[i + 1]);
  }

  lemma {:induction false} StatusChange(s: State, a: Action, d: nat)
    requires Sized(s) && Enabled(s, a) && d < |s.pc|
    ensures Next(s, a).status[d] == s.status[d] || Next(s, a).status[d] == NextStatus(s.pc[d], s.status[d])
  {
  }

  /** When the coordinator's manager returns, every thread everywhere has finished its cleanup,
      every other manager has returned, and no message is left anywhere. */
  lemma {:induction false} CoordinatorReturnsLast(run: seq<State>, n: nat, workers: nat, i: nat)
    requires IsRun(run, n, workers) && i < |run| && |run[i].pc| == n && run[i].pc[n - 1] == Done
    ensures |run[i].workers| == |run[i].stopQ| == |run[i].signalQ| == n
    ensures forall d :: 0 <= d < n ==> run[i].pc[d] == Done && run[i].stopQ[d] == run[i].signalQ[d] == 0
    ensures forall d, w :: 0 <= d < n && 0 <= w < |run[i].workers[d]| ==> run[i].workers[d][w] == Finished
    ensures run[i].ackQ == 0 && run[i].net == multiset{}
  {
    hide IsRun, Inv, StopTokens, SignalTokens, AckTokens, Caused, Local;
    var s := run[i];
    RunKeepsInv(run, n, workers, i);
    InvParts(s, workers);
    AcksAreExact(s.pc, s.net, s.ackQ);
    forall d | 0 <= d < n
      ensures s.pc[d] == Done && s.stopQ[d] == s.signalQ[d] == 0
      ensures forall w :: 0 <= w < |s.workers[d]| ==> s.workers[d][w] == Finished
    {
      AllStopsTaken(s.pc, s.net, s.stopQ, d);
      SignalsAreSpent(s.pc, s.net, s.signalQ, d);
      ThreadsAt(s, workers, d);
    }
    forall m ensures m !in s.net {
      if m in s.net {
        NothingInTransit(s.pc, s.net, s.stopQ, s.signalQ, s.ackQ, m);
      }
    }
    assert s.net == multiset{};
  }

  lemma {:induction false} AcksAreExact(pc: seq<Pc>, net: multiset<Message>, ackQ: nat)
    requires AckTokens(pc, net, ackQ) && pc[|pc| - 1] == Done
    ensures ackQ == 0 && forall c :: 0 <= c < |pc| - 1 ==> pc[c] == Done && net[Ack(c)] == 0
    ensures forall c :: 0 <= c < |pc| ==> pc[c] == Done
  {
    var n, a := |pc|, Acknowledged(pc, net);
    AllOthers(a, n, n - 1);
    forall c | 0 <= c < n - 1 ensures pc[c] == Done && net[Ack(c)] == 0 {
      assert c in a;
    }
  }

  lemma {:induction false} SignalsAreSpent(pc: seq<Pc>, net: multiset<Message>, signalQ: seq<nat>, d: nat)
    requires SignalTokens(pc, net, signalQ) && d < |pc| && !pc[d].WaitSignal?
    ensures signalQ[d] == 0 && (d < |pc| - 1 ==> net[Signal(d)] == 0)
  {
    if d < |pc| - 1 {
      assert SignalToken(pc, net, signalQ, d);
    }
  }

  lemma {:induction false} NothingInTransit(pc: seq<Pc>, net: multiset<Message>, stopQ: seq<nat>, signalQ: seq<nat>,
          ackQ: nat, m: Message)
    requires StopTokens(pc, net, stopQ) && SignalTokens(pc, net, signalQ) && AckTokens(pc, net, ackQ)
    requires forall c :: 0 <= c < |pc| ==> pc[c] == Done
    requires Addressed(|pc|, m)
    ensures m !in net
  {
    hide StopTokens, SignalTokens, AckTokens;
    match m
    case Signal(d) => SignalsAreSpent(pc, net, signalQ, d);
    case Stop(c, d) => AllStopsTaken(pc, net, stopQ, d);
    case Ack(c) => AcksAreExact(pc, net, ackQ);
  }

  /** No thread leaves its execution loop before the stop flag is up. */
  lemma {:induction false} NoStopBeforeFlag(run: seq<State>, n: nat, workers: nat, i: nat, d: nat, w: nat)
    requires IsRun(run, n, workers) && i < |run| && |run[i].workers| == n && d < n && w < |run[i].workers[d]|
    ensures WorkerRank(run[i].workers[d][w]) >= 3 ==> run[i].stopFlag
  {
    hide Inv, IsRun, StopTokens, SignalTokens, AckTokens;
    RunKeepsInv(run, n, workers, i);
    InvParts(run[i], workers);
    ThreadsAt(run[i], workers, d);
  }

  // ---------- progress and termination ----------

  ghost predicate AllDone(s: State) {
    && Sized(s)
    && (forall d :: 0 <= d < |s.pc| ==> s.pc[d] == Done)
    && forall d, w :: 0 <= d < |s.pc| && 0 <= w < |s.workers[d]| ==> s.workers[d][w] == Finished
  }

  ghost predicate Stuck(s: State)
    requires Sized(s)
  {
    forall a :: !Enabled(s, a)
  }

  /** Threads never hold their manager up. */
  lemma {:induction false} ThreadsFinish(n: nat, d: nat, pc: Pc, status: Status, started: int, completed: int,
          ws: seq<Worker>)
    requires Local(n, d, pc, status, started, completed, ws)
    requires forall w :: 0 <= w < |ws| ==> !WorkerEnabled(status, ws[w])
    ensures pc.WaitStarted? ==> started >= |ws|
    ensures pc.WaitStopped? || pc.WaitCleaned? ==> completed >= |ws|
  {
    var rank := if pc.WaitStarted? then 2 else if pc.WaitStopped? then 4 else 6;
    CountAll(ws, Past(rank));
    if pc.WaitStarted? || pc.WaitStopped? || pc.WaitCleaned? {
      forall w | 0 <= w < |ws| ensures WorkerRank(ws[w]) >= rank {
        assert Lo(pc) <= WorkerRank(ws[w]) <= Hi(pc) && !WorkerEnabled(status, ws[w]);
      }
    }
  }

  lemma {:induction false} ManagerHeldUp(s: State, workers: nat, d: nat)
    requires Inv(s, workers) && Sized(s) && Stuck(s) && d < |s.pc|
    ensures Idle(s, d) && PcFits(|s.pc|, d, s.pc[d])
  {
    hide StopTokens, SignalTokens, AckTokens, Caused, Local, PcFits, WorkerEnabled;
    assert !Enabled(s, Manage(d));
    forall w | 0 <= w < |s.workers[d]| ensures !WorkerEnabled(s.status[d], s.workers[d][w]) {
      assert !Enabled(s, Work(d, w));
    }
    ThreadsFinish(|s.pc|, d, s.pc[d], s.status[d], s.started[d], s.completed[d], s.workers[d]);
  }

  lemma {:induction false} StuckFacts(s: State, workers: nat)
    requires Inv(s, workers) && Sized(s) && Stuck(s)
    ensures s.stopFlag && s.net == multiset{}
    ensures forall d :: 0 <= d < |s.pc| ==> Idle(s, d) && PcFits(|s.pc|, d, s.pc[d])
  {
    hide StopTokens, SignalTokens, AckTokens, Caused, Local, ManagerEnabled, Idle, PcFits;
    assert !Enabled(s, RaiseStopFlag);
    forall m ensures m !in s.net {
      assert !Enabled(s, Deliver(m));
    }
    assert s.net == multiset{};
    forall d | 0 <= d < |s.pc| ensures Idle(s, d) && PcFits(|s.pc|, d, s.pc[d]) {
      ManagerHeldUp(s, workers, d);
    }
  }

  /** The only places where a manager can be held up. */
  predicate Idle(s: State, d: nat)
    requires Sized(s) && d < |s.pc|
  {
    var n, pc := |s.pc|, s.pc[d];
    || (pc.WaitSignal? && s.signalQ[d] == 0)
    || (pc.WaitFlag? && if IsCoordinator(n, d) then !s.stopFlag else s.stopQ[d] == 0)
    || (pc.WaitStops? && pc.k < StopsWanted(n, d) && s.stopQ[d] == 0)
    || (pc.Acks? && IsCoordinator(n, d) && pc.k < n - 1 && s.ackQ == 0)
    || pc.Done?
  }

  lemma {:induction false} StopCount(pc: seq<Pc>, net: multiset<Message>, stopQ: seq<nat>, d: nat)
    requires StopTokens(pc, net, stopQ) && d < |pc|
    ensures |stopQ| == |pc| && |Arrived(pc, net, d)| == stopQ[d] + StopsTaken(|pc|, d, pc[d])
  {
  }

  lemma {:induction false} SignalCount(pc: seq<Pc>, net: multiset<Message>, signalQ: seq<nat>, d: nat)
    requires SignalTokens(pc, net, signalQ) && d < |pc| - 1
    ensures |signalQ| == |pc| && SignalToken(pc, net, signalQ, d)
  {
  }

  lemma {:induction false} CoordinatorStopped(s: State)
    requires Sized(s) && s.stopFlag && Idle(s, |s.pc| - 1) && PcFits(|s.pc|, |s.pc| - 1, s.pc[|s.pc| - 1])
    ensures Rank(s.pc[|s.pc| - 1]) >= 10
  {
  }

  /** The coordinator has stopped and told everybody, so nobody waits for a signal or a first STOP. */
  lemma {:induction false} EverybodyStopped(s: State, d: nat)
    requires Sized(s) && s.net == multiset{} && d < |s.pc| - 1 && Idle(s, d) && Rank(s.pc[|s.pc| - 1]) >= 10
    requires |Arrived(s.pc, s.net, d)| == s.stopQ[d] + StopsTaken(|s.pc|, d, s.pc[d])
    requires SignalToken(s.pc, s.net, s.signalQ, d)
    ensures Rank(s.pc[d]) >= 10
  {
    assert |s.pc| - 1 in Arrived(s.pc, s.net, d);
  }

  /** With every STOP delivered, the second wait is over. */
  lemma {:induction false} StopsSuffice(s: State, d: nat)
    requires Sized(s) && s.net == multiset{} && d < |s.pc| && Idle(s, d)
    requires |Arrived(s.pc, s.net, d)| == s.stopQ[d] + StopsTaken(|s.pc|, d, s.pc[d])
    requires forall c :: 0 <= c < |s.pc| ==> Rank(s.pc[c]) >= 10
    ensures Rank(s.pc[d]) >= 14 && (d < |s.pc| - 1 ==> s.pc[d] == Done)
  {
    AllOthers(Arrived(s.pc, s.net, d), |s.pc|, d);
    forall c | 0 <= c < |s.pc| && c != d ensures c in Arrived(s.pc, s.net, d) {
      assert Rank(s.pc[c]) >= 10;
    }
    assert Rank(s.pc[d]) >= 10;
  }

  lemma {:induction false} AcksSuffice(s: State)
    requires Sized(s) && s.net == multiset{} && Idle(s, |s.pc| - 1) && Rank(s.pc[|s.pc| - 1]) >= 14
    requires AckTokens(s.pc, s.net, s.ackQ)
    requires forall c :: 0 <= c < |s.pc| - 1 ==> s.pc[c] == Done
    ensures s.pc[|s.pc| - 1] == Done
  {
    AllOthers(Acknowledged(s.pc, s.net), |s.pc|, |s.pc| - 1);
  }

  /** The protocol cannot deadlock: when no step is possible, everything is done. */
  lemma {:induction false} StuckIsDone(s: State, workers: nat)
    requires Inv(s, workers) && Sized(s) && Stuck(s)
    ensures AllDone(s)
  {
    hide Inv, Stuck, StopTokens, SignalTokens, AckTokens, Caused, Idle, PcFits, Arrived, StopsTaken, SignalToken, Rank;
    InvParts(s, workers);
    StuckFacts(s, workers);
    var n := |s.pc|;
    CoordinatorStopped(s);
    forall d | 0 <= d < n ensures Rank(s.pc[d]) >= 10 {
      if d < n - 1 {
        StopCount(s.pc, s.net, s.stopQ, d);
        SignalCount(s.pc, s.net, s.signalQ, d);
        EverybodyStopped(s, d);
      }
    }
    forall d | 0 <= d < n ensures Rank(s.pc[d]) >= 14 && (d < n - 1 ==> s.pc[d] == Done) {
      StopCount(s.pc, s.net, s.stopQ, d);
      StopsSuffice(s, d);
    }
    AcksSuffice(s);
    forall d | 0 <= d < n ensures forall w :: 0 <= w < |s.workers[d]| ==> s.workers[d][w] == Finished {
      ThreadsAt(s, workers, d);
      assert s.pc[d] == Done;
    }
  }

  /** How far a manager is through its statements. */
  function Position(n: nat, pc: Pc): nat {
    match pc
    case SignalTo(i) => 4 + i
    case Broadcast(i) => 9 + n + i
    case WaitStops(k) => 10 + 2 * n + k
    case Acks(k) => 14 + 3 * n + k
    case Done => 14 + 4 * n
    case _ => Rank(pc) + if Rank(pc) > 10 then 3 * n else if Rank(pc) > 4 then n else 0
  }

  function ManagersLeft(n: nat, pc: seq<Pc>): int {
    if pc == [] then 0 else 14 + 4 * n - Position(n, pc[0]) + ManagersLeft(n, pc[1..])
  }

  function ThreadsLeft(ws: seq<Worker>): nat {
    if ws == [] then 0 else 6 - WorkerRank(ws[0]) + ThreadsLeft(ws[1..])
  }

  function AllThreadsLeft(ws: seq<seq<Worker>>): nat {
    if ws == [] then 0 else ThreadsLeft(ws[0]) + AllThreadsLeft(ws[1..])
  }

  /** A bound on the number of steps that are still possible. */
  function StepsLeft(s: State): int {
    2 * ManagersLeft(|s.pc|, s.pc) + AllThreadsLeft(s.workers) + |s.net| + if s.stopFlag then 0 else 1
  }

  lemma {:induction false} ManagersLeftUpdate(n: nat, pc: seq<Pc>, d: nat, x: Pc)
    requires d < |pc|
    ensures ManagersLeft(n, pc[d := x]) == ManagersLeft(n, pc) + Position(n, pc[d]) - Position(n, x)
  {
    if d == 0 {
      assert pc[d := x][1..] == pc[1..];
    } else {
      assert pc[d := x][1..] == pc[1..][d - 1 := x];
      ManagersLeftUpdate(n, pc[1..], d - 1, x);
    }
  }

  lemma {:induction false} ThreadsLeftUpdate(ws: seq<Worker>, w: nat, x: Worker)
    requires w < |ws|
    ensures ThreadsLeft(ws[w := x]) == ThreadsLeft(ws) + WorkerRank(ws[w]) - WorkerRank(x)
  {
    if w == 0 {
      assert ws[w := x][1..] == ws[1..];
    } else {
      assert ws[w := x][1..] == ws[1..][w - 1 := x];
      ThreadsLeftUpdate(ws[1..], w - 1, x);
    }
  }

  lemma {:induction false} AllThreadsLeftUpdate(ws: seq<seq<Worker>>, d: nat, x: seq<Worker>)
    requires d < |ws|
    ensures AllThreadsLeft(ws[d := x]) == AllThreadsLeft(ws) - ThreadsLeft(ws[d]) + ThreadsLeft(x)
  {
    if d == 0 {
      assert ws[d := x][1..] == ws[1..];
    } else {
      assert ws[d := x][1..] == ws[1..][d - 1 := x];
      AllThreadsLeftUpdate(ws[1..], d - 1, x);
    }
  }

  lemma {:induction false} PositionNext(n: nat, d: nat, pc: Pc)
    requires n >= 2 && d < n && PcFits(n, d, pc) && !pc.Done?
    ensures Position(n, NextPc(n, d, pc)) > Position(n, pc) && |Sends(n, d, pc)| <= 1
  {
  }

  lemma {:induction false} ManageUsesUp(s: State, d: nat)
    requires Sized(s) && d < |s.pc| && ManagerEnabled(s, d) && PcFits(|s.pc|, d, s.pc[d])
    ensures StepsLeft(ManagerStep(s, d)) < StepsLeft(s)
  {
    hide PcFits, NextPc, Sends, Position;
    PositionNext(|s.pc|, d, s.pc[d]);
    ManagersLeftUpdate(|s.pc|, s.pc, d, NextPc(|s.pc|, d, s.pc[d]));
  }

  lemma {:induction false} WorkUsesUp(s: State, d: nat, w: nat)
    requires Sized(s) && d < |s.pc| && w < |s.workers[d]| && WorkerEnabled(s.status[d], s.workers[d][w])
    ensures StepsLeft(WorkerStep(s, d, w)) < StepsLeft(s)
  {
    hide ManagersLeft;
    var ws := s.workers[d];
    ThreadsLeftUpdate(ws, w, NextWorker(ws[w]));
    AllThreadsLeftUpdate(s.workers, d, ws[w := NextWorker(ws[w])]);
  }

  lemma {:induction false} DeliverUsesUp(s: State, m: Message)
    requires Sized(s) && Addressed(|s.pc|, m) && m in s.net
    ensures StepsLeft(DeliverStep(s, m)) < StepsLeft(s)
  {
    hide ManagersLeft, AllThreadsLeft;
    assert s.net == (s.net - multiset{m}) + multiset{m};
  }

  /** Every step brings the end nearer: a poll that finds nothing new is not a step. */
  lemma {:induction false} StepUsesUp(s: State, workers: nat, a: Action)
    requires Inv(s, workers) && Sized(s) && Enabled(s, a)
    ensures StepsLeft(Next(s, a)) < StepsLeft(s)
  {
    hide StopTokens, SignalTokens, AckTokens, Caused, Local, PcFits, ManagerStep, WorkerStep, DeliverStep, ManagersLeft,
        AllThreadsLeft;
    match a
    case Manage(d) => ManageUsesUp(s, d);
    case Work(d, w) => WorkUsesUp(s, d, w);
    case Deliver(m) => DeliverUsesUp(s, m);
    case RaiseStopFlag =>
  }

  lemma {:induction false} ManagersLeftBound(n: nat, pc: seq<Pc>)
    requires forall d :: 0 <= d < |pc| ==> Position(n, pc[d]) <= 14 + 4 * n
    ensures 0 <= ManagersLeft(n, pc) <= (14 + 4 * n) * |pc|
  {
    if pc != [] {
      assert forall d :: 0 <= d < |pc[1..]| ==> pc[1..][d] == pc[d + 1];
      ManagersLeftBound(n, pc[1..]);
      assert (14 + 4 * n) * |pc| == 14 + 4 * n + (14 + 4 * n) * (|pc| - 1);
    }
  }

  lemma {:induction false} ThreadsLeftBound(ws: seq<Worker>)
    ensures ThreadsLeft(ws) <= 6 * |ws|
  {
    if ws != [] {
      ThreadsLeftBound(ws[1..]);
    }
  }

  lemma {:induction false} AllThreadsLeftBound(ws: seq<seq<Worker>>, workers: nat)
    requires forall d :: 0 <= d < |ws| ==> |ws[d]| == workers
    ensures AllThreadsLeft(ws) <= 6 * workers * |ws|
  {
    if ws != [] {
      assert forall d :: 0 <= d < |ws[1..]| ==> ws[1..][d] == ws[d + 1];
      ThreadsLeftBound(ws[0]);
      AllThreadsLeftBound(ws[1..], workers);
      assert 6 * workers * |ws| == 6 * workers + 6 * workers * (|ws| - 1);
    }
  }

  lemma {:induction false} PositionBound(n: nat, d: nat, pc: Pc)
    requires n >= 2 && d < n && PcFits(n, d, pc)
    ensures Position(n, pc) <= 14 + 4 * n
  {
  }

  lemma {:induction false} StepsLeftBound(s: State, workers: nat)
    requires Inv(s, workers)
    ensures 0 <= StepsLeft(s) <= 2 * (14 + 4 * |s.pc|) * |s.pc| + 6 * workers * |s.pc| + |s.net| + 1
  {
    hide StopTokens, SignalTokens, AckTokens, Caused, Local, PcFits, Position;
    forall d | 0 <= d < |s.pc| ensures Position(|s.pc|, s.pc[d]) <= 14 + 4 * |s.pc| {
      PositionBound(|s.pc|, d, s.pc[d]);
    }
    ManagersLeftBound(|s.pc|, s.pc);
    AllThreadsLeftBound(s.workers, workers);
    assert 2 * ((14 + 4 * |s.pc|) * |s.pc|) == 2 * (14 + 4 * |s.pc|) * |s.pc|;
  }

  lemma {:induction false} RunUsesUp(run: seq<State>, n: nat, workers: nat, i: nat)
    requires IsRun(run, n, workers) && i < |run|
    ensures StepsLeft(run[i]) + i <= StepsLeft(run[0])
  {
    if i > 0 {
      hide Inv, StepsLeft, Next, Enabled;
      RunUsesUp(run, n, workers, i - 1);
      RunKeepsInv(run, n, workers, i - 1);
      StepOfRun(run, n, workers, i - 1);
      SizedByInv(run[i - 1], workers);
      var a :| Enabled(run[i - 1], a) && run[i] == Next(run[i - 1], a);
      StepUsesUp(run[i - 1], workers, a);
    }
  }

  /** Every run is finite, with a bound in the number of nodes and threads, and a run that cannot
      be extended has everything done: the protocol always terminates, and properly. */
  lemma {:induction false} EveryRunEndsDone(run: seq<State>, n: nat, workers: nat)
    requires IsRun(run, n, workers)
    ensures |run| <= 2 * (14 + 4 * n) * n + 6 * workers * n + 2
    ensures CannotMove(run[|run| - 1]) ==> AllDone(run[|run| - 1])
  {
    hide Inv, StepsLeft, AllDone, IsRun;
    RunStarts(run, n, workers);
    var last := |run| - 1;
    RunKeepsInv(run, n, workers, last);
    RunKeepsInv(run, n, workers, 0);
    RunUsesUp(run, n, workers, last);
    StepsLeftBound(run[0], workers);
    StepsLeftBound(run[last], workers);
    if CannotMove(run[last]) {
      CannotMoveIsStuck(run[last], workers);
      StuckIsDone(run[last], workers);
    }
  }

  lemma {:induction false} RunStarts(run: seq<State>, n: nat, workers: nat)
    requires IsRun(run, n, workers)
    ensures |run| > 0 && |run[0].net| == 0 && |run[0].pc| == n
  {
  }

  ghost predicate CannotMove(s: State) {
    forall t :: !Step(s, t)
  }

  lemma {:induction false} ActionIsStep(s: State, a: Action)
    requires Sized(s) && Enabled(s, a)
    ensures Step(s, Next(s, a))
  {
  }

  lemma {:induction false} CannotMoveIsStuck(s: State, workers: nat)
    requires Inv(s, workers) && CannotMove(s)
    ensures Sized(s) && Stuck(s)
  {
    hide Inv, Next, Enabled;
    SizedByInv(s, workers);
    forall a ensures !Enabled(s, a) {
      if Enabled(s, a) {
        ActionIsStep(s, a);
      }
    }
  }
}
