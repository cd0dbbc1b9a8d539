/** The phase loop of the Aria managers. */
module AriaBarrier {
  import opened Counting

  // In every round all nodes go through a READ and a COMMIT phase, each closed by STOP messages
  // between all pairs of nodes and by acknowledgements to the coordinator, which is the last node.

  datatype Status = READ | COMMIT | STOP | EXIT

  datatype Phase = Phase(round: nat, commit: bool)

  /** Where a thread stands in a phase: `Poll` waits for the phase's status, `Leave` is the wait
      for the status to change again. */
  datatype Stage = Poll | CountStart | Running | Leave | CountLeft

  datatype Worker = At(phase: Phase, stage: Stage) | Exited

  datatype Pc =
    | WaitSignal | CheckFlag | ResetStarted | ResetCompleted | SetStatus | SignalTo(i: nat) | WaitStarted | WaitDone
    | Broadcast(i: nat) | WaitStops(k: nat) | BumpEpoch | Cleanup | ResetForStop | SetStop | WaitLeft | Acks(k: nat)
    | SetExit | ExitTo(i: nat) | Done

  datatype Message = Signal(dst: nat, status: Status) | Stop(src: nat, dst: nat) | Ack(src: nat)

  datatype State = State(
    phase: seq<Phase>, pc: seq<Pc>, epoch: seq<nat>, status: seq<Status>, started: seq<int>, completed: seq<int>,
    workers: seq<seq<Worker>>, signalQ: seq<seq<Status>>, stopQ: seq<nat>, ackQ: nat, net: multiset<Message>,
        stopFlag: bool)

  datatype Action = Manage(d: nat) | Work(d: nat, w: nat) | Deliver(m: Message) | RaiseStopFlag

  function NextPhase(p: Phase): (q: Phase)
    ensures q != p
  {
    if p.commit then Phase(p.round + 1, false) else Phase(p.round, true)
  }

  function StatusOf(p: Phase): Status {
    if p.commit then COMMIT else READ
  }

  function Rank(pc: Pc): nat {
    match pc
    case WaitSignal => 0
    case CheckFlag => 0
    case ResetStarted => 1
    case ResetCompleted => 2
    case SetStatus => 3
    case SignalTo(_) => 4
    case WaitStarted => 5
    case WaitDone => 6
    case Broadcast(_) => 7
    case WaitStops(_) => 8
    case BumpEpoch => 9
    case Cleanup => 10
    case ResetForStop => 11
    case SetStop => 12
    case WaitLeft => 13
    case Acks(_) => 14
    case SetExit => 15
    case ExitTo(_) => 16
    case Done => 17
  }

  predicate Sized(s: State) {
    && |s.pc| >= 2
    && |s.pc| == |s.phase| == |s.epoch| == |s.status| == |s.started| == |s.completed| == |s.workers| == |s.signalQ|
        == |s.stopQ|
  }

  predicate IsCoordinator(n: nat, d: nat) {
    d == n - 1
  }

  // ---------- steps ----------

  predicate ManagerEnabled(s: State, d: nat)
    requires Sized(s) && d < |s.pc|
  {
    var n := |s.pc|;
    match s.pc[d]
    case WaitSignal => s.signalQ[d] != []
    case WaitStarted => s.started[d] >= |s.workers[d]|
    case WaitDone => s.completed[d] >= |s.workers[d]|
    case WaitStops(k) => k < n - 1 ==> s.stopQ[d] > 0
    case WaitLeft => s.completed[d] >= |s.workers[d]|
    case Acks(k) => IsCoordinator(n, d) && k < n - 1 ==> s.ackQ > 0
    case Done => false
    case _ => true
  }

  /** The manager's next program counter. `exit` is what decides at the head of the loop: the stop
      flag on the coordinator, the received signal elsewhere. */
  function NextPc(n: nat, d: nat, phase: Phase, pc: Pc, exit: bool): Pc {
    match pc
    case WaitSignal => if exit then SetExit else ResetStarted
    case CheckFlag => if exit then SetExit else ResetStarted
    case ResetStarted => ResetCompleted
    case ResetCompleted => SetStatus
    case SetStatus => if IsCoordinator(n, d) then SignalTo(0) else WaitStarted
    case SignalTo(i) => if i < n then SignalTo(i + 1) else WaitStarted
    case WaitStarted => WaitDone
    case WaitDone => Broadcast(0)
    case Broadcast(i) => if i < n then Broadcast(i + 1) else WaitStops(0)
    case WaitStops(k) => if k < n - 1 then WaitStops(k + 1) else if phase.commit then BumpEpoch else ResetForStop
    case BumpEpoch => Cleanup
    case Cleanup => ResetForStop
    case ResetForStop => SetStop
    case SetStop => WaitLeft
    case WaitLeft => Acks(0)
    case Acks(k) =>
      if !IsCoordinator(n, d) then WaitSignal
      else if k < n - 1 then Acks(k + 1) else if phase.commit then CheckFlag else ResetStarted
    case SetExit => if IsCoordinator(n, d) then ExitTo(0) else Done
    case ExitTo(i) => if i < n then ExitTo(i + 1) else Done
    case Done => Done
  }

  predicate EndsPhase(n: nat, d: nat, pc: Pc) {
    pc.Acks? && (IsCoordinator(n, d) ==> pc.k >= n - 1)
  }

  function Sends(n: nat, d: nat, phase: Phase, pc: Pc): multiset<Message> {
    match pc
    case SignalTo(i) => if i < n && i != d then multiset{Signal(i, StatusOf(phase))} else multiset{}
    case Broadcast(i) => if i < n && i != d then multiset{Stop(d, i)} else multiset{}
    case Acks(_) => if IsCoordinator(n, d) then multiset{} else multiset{Ack(d)}
    case ExitTo(i) => if i < n && i != d then multiset{Signal(i, EXIT)} else multiset{}
    case _ => multiset{}
  }

  function NextStatus(phase: Phase, pc: Pc, status: Status): Status {
    match pc
    case SetStatus => StatusOf(phase)
    case SetStop => STOP
    case SetExit => EXIT
    case _ => status
  }

  predicate TakesStop(n: nat, pc: Pc) {
    pc.WaitStops? && pc.k < n - 1
  }

  predicate TakesAck(n: nat, d: nat, pc: Pc) {
    pc.Acks? && IsCoordinator(n, d) && pc.k < n - 1
  }

  predicate Exits(s: State, d: nat)
    requires Sized(s) && d < |s.pc| && (s.pc[d].WaitSignal? ==> s.signalQ[d] != [])
  {
    if s.pc[d].WaitSignal? then s.signalQ[d][0] == EXIT else s.pc[d].CheckFlag? && s.stopFlag
  }

  function NextStarted(pc: Pc, started: int): int {
    if pc.ResetStarted? then 0 else started
  }

  function NextCompleted(pc: Pc, completed: int): int {
    if pc.ResetCompleted? || pc.ResetForStop? then 0 else completed
  }

  function ManagerStep(s: State, d: nat): State
    requires Sized(s) && d < |s.pc| && ManagerEnabled(s, d)
  {
    var n, phase, pc := |s.pc|, s.phase[d], s.pc[d];
    s.(phase := if EndsPhase(n, d, pc) then s.phase[d := NextPhase(phase)] else s.phase,
       pc := s.pc[d := NextPc(n, d, phase, pc, Exits(s, d))],
       epoch := if pc.BumpEpoch? then s.epoch[d := s.epoch[d] + 1] else s.epoch,
       status := s.status[d := NextStatus(phase, pc, s.status[d])],
       started := s.started[d := NextStarted(pc, s.started[d])],
       completed := s.completed[d := NextCompleted(pc, s.completed[d])],
       signalQ := if pc.WaitSignal? then s.signalQ[d := s.signalQ[d][1..]] else s.signalQ,
       stopQ := if TakesStop(n, pc) then s.stopQ[d := s.stopQ[d] - 1] else s.stopQ,
       ackQ := if TakesAck(n, d, pc) then s.ackQ - 1 else s.ackQ,
       net := s.net + Sends(n, d, phase, pc))
  }

  /** A thread looks for EXIT only where it waits for READ. */
  predicate WorkerEnabled(status: Status, w: Worker) {
    match w
    case Exited => false
    case At(phase, Poll) => status == StatusOf(phase) || (!phase.commit && status == EXIT)
    case At(phase, Leave) => status != StatusOf(phase)
    case At(_, _) => true
  }

  function NextWorker(status: Status, w: Worker): Worker {
    match w
    case Exited => Exited
    case At(phase, Poll) => if status == StatusOf(phase) then At(phase, CountStart) else Exited
    case At(phase, CountStart) => At(phase, Running)
    case At(phase, Running) => At(phase, Leave)
    case At(phase, Leave) => At(phase, CountLeft)
    case At(phase, CountLeft) => At(NextPhase(phase), Poll)
  }

  function Starts(w: Worker): int {
    if w.At? && w.stage.CountStart? then 1 else 0
  }

  function Completes(w: Worker): int {
    if w.At? && (w.stage.Running? || w.stage.CountLeft?) then 1 else 0
  }

  function WorkerStep(s: State, d: nat, w: nat): State
    requires Sized(s) && d < |s.pc| && w < |s.workers[d]|
  {
    var at := s.workers[d][w];
    s.(workers := s.workers[d := s.workers[d][w := NextWorker(s.status[d], at)]],
       started := s.started[d := s.started[d] + Starts(at)],
       completed := s.completed[d := s.completed[d] + Completes(at)])
  }

  predicate Addressed(n: nat, m: Message) {
    match m
    case Signal(dst, _) => dst < n - 1
    case Stop(src, dst) => src < n && dst < n && src != dst
    case Ack(src) => src < n - 1
  }

  function DeliverStep(s: State, m: Message): State
    requires Sized(s) && Addressed(|s.pc|, m)
  {
    var t := s.(net := s.net - multiset{m});
    match m
    case Signal(dst, v) => t.(signalQ := s.signalQ[dst := s.signalQ[dst] + [v]])
    case Stop(_, dst) => t.(stopQ := s.stopQ[dst := s.stopQ[dst] + 1])
    case Ack(_) => t.(ackQ := s.ackQ + 1)
  }

  predicate Enabled(s: State, a: Action)
    requires Sized(s)
  {
    match a
    case Manage(d) => d < |s.pc| && ManagerEnabled(s, d)
    case Work(d, w) => d < |s.pc| && w < |s.workers[d]| && WorkerEnabled(s.status[d], s.workers[d][w])
    case Deliver(m) => m in s.net && Addressed(|s.pc|, m)
    case RaiseStopFlag => !s.stopFlag
  }

  function Next(s: State, a: Action): (t: State)
    requires Sized(s) && Enabled(s, a)
    ensures Sized(t) && |t.pc| == |s.pc|
  {
    match a
    case Manage(d) => ManagerStep(s, d)
    case Work(d, w) => WorkerStep(s, d, w)
    case Deliver(m) => DeliverStep(s, m)
    case RaiseStopFlag => s.(stopFlag := true)
  }

  ghost predicate Step(s: State, t: State) {
    Sized(s) && exists a :: Enabled(s, a) && t == Next(s, a)
  }

  predicate Init(s: State, n: nat, workers: nat) {
    && n >= 2 && Sized(s) && |s.pc| == n && s.ackQ == 0 && s.net == multiset{}
    && forall d :: 0 <= d < n ==>
         && s.phase[d] == Phase(0, false) && s.pc[d] == (if IsCoordinator(n, d) then CheckFlag else WaitSignal)
         && s.epoch[d] == 0 && s.status[d] == STOP && s.signalQ[d] == [] && s.stopQ[d] == 0
         && |s.workers[d]| == workers && forall w :: 0 <= w < workers ==> s.workers[d][w] == At(Phase(0, false), Poll)
  }

  ghost predicate IsRun(run: seq<State>, n: nat, workers: nat) {
    && |run| > 0 && Init(run[0], n, workers)
    && forall i :: 0 < i < |run| ==> Step(run[i - 1], run[i])
  }

  // ---------- what holds on one node ----------

  function StageRank(stage: Stage): nat {
    match stage
    case Poll => 0
    case CountStart => 1
    case Running => 2
    case Leave => 3
    case CountLeft => 4
  }

  /** How far a thread is, seen from its manager's phase. */
  function Progress(phase: Phase, w: Worker): nat {
    match w
    case Exited => 6
    case At(p, stage) =>
      if p == phase then StageRank(stage)
      else if p == NextPhase(phase) && stage.Poll? then 5
      else 7
  }

  function Past(phase: Phase, rank: nat): Worker -> bool {
    w => Progress(phase, w) >= rank
  }

  function Lo(pc: Pc): nat {
    var r := Rank(pc);
    if r <= 5 then 0 else if r == 6 then 2 else if r <= 13 then 3 else if r == 14 then 5 else 0
  }

  function Hi(pc: Pc): nat {
    var r := Rank(pc);
    if r <= 3 then 0 else if r <= 12 then 3 else if r <= 14 then 5 else if r == 15 then 0 else 6
  }

  function StatusAt(phase: Phase, pc: Pc): Status {
    var r := Rank(pc);
    if r <= 3 then STOP else if r <= 12 then StatusOf(phase) else if r <= 15 then STOP else EXIT
  }

  predicate ThreadFits(phase: Phase, pc: Pc, w: Worker) {
    var p := Progress(phase, w);
    Lo(pc) <= p <= Hi(pc) && (Rank(pc) > 15 ==> p == 0 || p == 6)
  }

  function EpochAt(phase: Phase, pc: Pc): nat {
    phase.round + if phase.commit && 10 <= Rank(pc) <= 14 then 1 else 0
  }

  /** What one node's manager, epoch, status word, counters and threads agree on. */
  ghost predicate Local(phase: Phase, pc: Pc, epoch: nat, status: Status, started: int, completed: int,
          ws: seq<Worker>) {
    && status == StatusAt(phase, pc) && epoch == EpochAt(phase, pc)
    && (forall w :: 0 <= w < |ws| ==> ThreadFits(phase, pc, ws[w]))
    && (2 <= Rank(pc) <= 14 ==> started == Count(ws, Past(phase, 2)))
    && (3 <= Rank(pc) <= 11 ==> completed == Count(ws, Past(phase, 3)))
    && (12 <= Rank(pc) <= 14 ==> completed == Count(ws, Past(phase, 5)))
  }

  predicate PcFits(n: nat, d: nat, phase: Phase, pc: Pc) {
    match pc
    case WaitSignal => !IsCoordinator(n, d)
    case CheckFlag => IsCoordinator(n, d) && !phase.commit
    case SignalTo(i) => IsCoordinator(n, d) && i <= n
    case Broadcast(i) => i <= n
    case WaitStops(k) => k <= n - 1
    case BumpEpoch => phase.commit
    case Cleanup => phase.commit
    case Acks(k) => if IsCoordinator(n, d) then k <= n - 1 else k == 0
    case SetExit => !phase.commit
    case ExitTo(i) => IsCoordinator(n, d) && i <= n && !phase.commit
    case Done => !phase.commit
    case _ => true
  }

  lemma {:induction false} WorkerMoves(phase: Phase, pc: Pc, status: Status, w: Worker)
    requires status == StatusAt(phase, pc) && ThreadFits(phase, pc, w) && WorkerEnabled(status, w)
    requires (Rank(pc) > 14 ==> !phase.commit)
    ensures ThreadFits(phase, pc, NextWorker(status, w))
    ensures Rank(pc) <= 14 ==>
        Starts(w) == (if Past(phase, 2)(NextWorker(status, w)) then 1 else 0) - (if Past(phase, 2)(w) then 1 else 0)
    ensures 2 <= Rank(pc) <= 14 ==>
              Completes(w) == (if Past(phase, if Rank(pc) <= 11 then 3 else 5)(NextWorker(status, w)) then 1 else 0)
                            - (if Past(phase, if Rank(pc) <= 11 then 3 else 5)(w) then 1 else 0)
  {
  }

  lemma {:induction false} LocalWork(phase: Phase, pc: Pc, epoch: nat, status: Status, started: int, completed: int,
          ws: seq<Worker>, w: nat)
    requires Local(phase, pc, epoch, status, started, completed, ws) && w < |ws| && WorkerEnabled(status, ws[w])
    requires Rank(pc) > 14 ==> !phase.commit
    ensures Local(phase, pc, epoch, status, started + Starts(ws[w]), completed + Completes(ws[w]),
        ws[w := NextWorker(status, ws[w])])
  {
    hide Past, ThreadFits, NextWorker, Starts, Completes, WorkerEnabled, StatusAt, Count;
    WorkerMoves(phase, pc, status, ws[w]);
    var next := NextWorker(status, ws[w]);
    CountUpdate(ws, w, next, Past(phase, 2));
    CountUpdate(ws, w, next, Past(phase, 3));
    CountUpdate(ws, w, next, Past(phase, 5));
  }

  function PhaseAfter(n: nat, d: nat, phase: Phase, pc: Pc): Phase {
    if EndsPhase(n, d, pc) then NextPhase(phase) else phase
  }

  /** What a manager knows of one of its threads when it moves on. */
  lemma {:induction false} ThreadStays(n: nat, d: nat, phase: Phase, pc: Pc, exit: bool, w: Worker)
    requires ThreadFits(phase, pc, w) && (exit ==> !phase.commit)
    requires pc.WaitStarted? ==> Past(phase, 2)(w)
    requires pc.WaitDone? ==> Past(phase, 3)(w)
    requires pc.WaitLeft? ==> Past(phase, 5)(w)
    ensures ThreadFits(PhaseAfter(n, d, phase, pc), NextPc(n, d, phase, pc, exit), w)
  {
  }

  lemma {:induction false} WaitIsOver(phase: Phase, pc: Pc, epoch: nat, status: Status, started: int, completed: int,
          ws: seq<Worker>)
    requires Local(phase, pc, epoch, status, started, completed, ws)
    requires pc.WaitStarted? ==> started >= |ws|
    requires pc.WaitDone? || pc.WaitLeft? ==> completed >= |ws|
    ensures pc.WaitStarted? ==> forall w :: 0 <= w < |ws| ==> Past(phase, 2)(ws[w])
    ensures pc.WaitDone? ==> forall w :: 0 <= w < |ws| ==> Past(phase, 3)(ws[w])
    ensures pc.WaitLeft? ==> forall w :: 0 <= w < |ws| ==> Past(phase, 5)(ws[w])
  {
    hide ThreadFits, Past;
    CountAll(ws, Past(phase, 2));
    CountAll(ws, Past(phase, 3));
    CountAll(ws, Past(phase, 5));
  }

  lemma {:induction false} NothingCounted(phase: Phase, pc: Pc, ws: seq<Worker>)
    requires forall w :: 0 <= w < |ws| ==> ThreadFits(phase, pc, ws[w])
    ensures Rank(pc) <= 3 ==> Count(ws, Past(phase, 2)) == Count(ws, Past(phase, 3)) == 0
    ensures Rank(pc) <= 12 ==> Count(ws, Past(phase, 5)) == 0
  {
    if Rank(pc) <= 3 {
      CountNone(ws, Past(phase, 2));
      CountNone(ws, Past(phase, 3));
    }
    if Rank(pc) <= 12 {
      CountNone(ws, Past(phase, 5));
    }
  }

  lemma {:induction false} CountersNext(n: nat, d: nat, phase: Phase, pc: Pc, exit: bool)
    requires n >= 2 && d < n && PcFits(n, d, phase, pc) && (exit ==> !phase.commit)
    ensures NextStatus(phase, pc, StatusAt(phase, pc))
        == StatusAt(PhaseAfter(n, d, phase, pc), NextPc(n, d, phase, pc, exit))
    ensures EpochAt(phase, pc) + (if pc.BumpEpoch? then 1 else 0)
        == EpochAt(PhaseAfter(n, d, phase, pc), NextPc(n, d, phase, pc, exit))
    ensures PcFits(n, d, PhaseAfter(n, d, phase, pc), NextPc(n, d, phase, pc, exit))
    ensures PhaseAfter(n, d, phase, pc) != phase ==> Rank(NextPc(n, d, phase, pc, exit)) <= 1
  {
  }

  lemma {:induction false} LocalManage(n: nat, d: nat, phase: Phase, pc: Pc, epoch: nat, status: Status, started: int,
          completed: int, ws: seq<Worker>, exit: bool)
    requires Local(phase, pc, epoch, status, started, completed, ws)
    requires n >= 2 && d < n && PcFits(n, d, phase, pc) && (exit ==> !phase.commit)
    requires pc.WaitStarted? ==> started >= |ws|
    requires pc.WaitDone? || pc.WaitLeft? ==> completed >= |ws|
    ensures Local(PhaseAfter(n, d, phase, pc), NextPc(n, d, phase, pc, exit), epoch + if pc.BumpEpoch? then 1 else 0,
                  NextStatus(phase, pc, status), NextStarted(pc, started), NextCompleted(pc, completed), ws)
  {
    WaitIsOver(phase, pc, epoch, status, started, completed, ws);
    NothingCounted(phase, pc, ws);
    CountersNext(n, d, phase, pc, exit);
    forall w | 0 <= w < |ws| ensures ThreadFits(PhaseAfter(n, d, phase, pc), NextPc(n, d, phase, pc, exit), ws[w]) {
      ThreadStays(n, d, phase, pc, exit, ws[w]);
    }
    hide Past, ThreadFits, PcFits, PhaseAfter, StatusAt, EpochAt, NextStatus, Count;
  }

  // ---------- what holds across nodes ----------

  /** In the coordinator's phase `now`, a node at `phase` and `pc` has sent its STOP to node `d`. */
  predicate Sent(now: Phase, phase: Phase, pc: Pc, d: nat) {
    phase != now || 8 <= Rank(pc) <= 14 || (pc.Broadcast? && d < pc.i)
  }

  /** How many STOP messages of the phase `now` a node has consumed. */
  function StopsTaken(n: nat, now: Phase, phase: Phase, pc: Pc): int {
    if phase != now || 9 <= Rank(pc) <= 14 then n - 1 else if pc.WaitStops? then pc.k else 0
  }

  /** The nodes whose STOP of the phase `now` has reached node `d`. */
  ghost function Arrived(now: Phase, phase: seq<Phase>, pc: seq<Pc>, net: multiset<Message>, d: nat): (a: set<nat>)
    requires |phase| == |pc|
    ensures a <= Nodes(|pc|) && d !in a
  {
    set c | c in Nodes(|pc|) && c != d && Sent(now, phase[c], pc[c], d) && net[Stop(c, d)] == 0
  }

  ghost predicate StopInTransit(now: Phase, phase: seq<Phase>, pc: seq<Pc>, net: multiset<Message>, c: nat, d: nat)
    requires c < |pc| == |phase|
  {
    net[Stop(c, d)] <= if Sent(now, phase[c], pc[c], d) then 1 else 0
  }

  ghost predicate StopTokens(now: Phase, phase: seq<Phase>, pc: seq<Pc>, net: multiset<Message>, stopQ: seq<nat>) {
    && |stopQ| == |pc| == |phase|
    && (forall c, d :: 0 <= c < |pc| && 0 <= d < |pc| && c != d ==> StopInTransit(now, phase, pc, net, c, d))
    && forall d :: 0 <= d < |pc| ==>
        |Arrived(now, phase, pc, net, d)| == stopQ[d] + StopsTaken(|pc|, now, phase[d], pc[d])
  }

  predicate Exiting(pc: Pc) {
    Rank(pc) >= 15
  }

  /** The coordinator's manager has sent this phase's signal, or EXIT, to node `d`. */
  predicate Signalled(pc: Pc, d: nat) {
    5 <= Rank(pc) <= 14 || Rank(pc) > 16 || ((pc.SignalTo? || pc.ExitTo?) && d < pc.i)
  }

  /** The value of the signal of the coordinator's phase. */
  function SignalValue(now: Phase, pc: Pc): Status {
    if Exiting(pc) then EXIT else StatusOf(now)
  }

  /** Node `d` has consumed the signal of the phase `now`. */
  predicate Entered(now: Phase, phase: Phase, pc: Pc) {
    phase != now || !pc.WaitSignal?
  }

  ghost predicate SignalToken(now: Phase, lead: Pc, phase: Phase, pc: Pc, net: multiset<Message>, queue: seq<Status>,
          d: nat) {
    var v := SignalValue(now, lead);
    && (forall u :: u != v ==> net[Signal(d, u)] == 0)
    && (Entered(now, phase, pc) ==> Signalled(lead, d))
    && if Signalled(lead, d) && !Entered(now, phase, pc)
       then (net[Signal(d, v)] == 1 && queue == []) || (net[Signal(d, v)] == 0 && queue == [v])
       else net[Signal(d, v)] == 0 && queue == []
  }

  ghost predicate SignalTokens(now: Phase, lead: Pc, phase: seq<Phase>, pc: seq<Pc>, net: multiset<Message>,
          signalQ: seq<seq<Status>>) {
    && |signalQ| == |pc| == |phase| > 0 && signalQ[|pc| - 1] == []
    && forall d :: 0 <= d < |pc| - 1 ==> SignalToken(now, lead, phase[d], pc[d], net, signalQ[d], d)
  }

  ghost function Acknowledged(now: Phase, phase: seq<Phase>, net: multiset<Message>): (a: set<nat>)
    ensures a <= Nodes(|phase|) && |phase| - 1 !in a
  {
    set c | c in Nodes(|phase|) && c != |phase| - 1 && phase[c] != now && net[Ack(c)] == 0
  }

  function AcksTaken(pc: Pc): nat {
    if pc.Acks? then pc.k else 0
  }

  ghost predicate AckInTransit(now: Phase, phase: seq<Phase>, net: multiset<Message>, c: nat)
    requires c < |phase|
  {
    net[Ack(c)] <= if phase[c] != now then 1 else 0
  }

  ghost predicate AckTokens(now: Phase, phase: seq<Phase>, lead: Pc, net: multiset<Message>, ackQ: nat) {
    && (forall c :: 0 <= c < |phase| - 1 ==> AckInTransit(now, phase, net, c))
    && |Acknowledged(now, phase, net)| == ackQ + AcksTaken(lead)
  }

  /** A node is in the coordinator's phase, or it has acknowledged it and waits for the next one. */
  predicate Follows(now: Phase, lead: Pc, phase: Phase, pc: Pc) {
    && (phase == now || (phase == NextPhase(now) && pc.WaitSignal?))
    && (phase == now && Exiting(pc) ==> Exiting(lead))
    && (Exiting(lead) ==> phase == now && (pc.WaitSignal? || Exiting(pc)))
  }

  ghost predicate AllFollow(now: Phase, lead: Pc, phase: seq<Phase>, pc: seq<Pc>) {
    && |phase| == |pc|
    && forall d :: 0 <= d < |pc| - 1 ==> Follows(now, lead, phase[d], pc[d])
  }

  ghost predicate NodesOk(s: State, workers: nat) {
    && Sized(s)
    && forall d :: 0 <= d < |s.pc| ==>
         && |s.workers[d]| == workers && PcFits(|s.pc|, d, s.phase[d], s.pc[d])
         && Local(s.phase[d], s.pc[d], s.epoch[d], s.status[d], s.started[d], s.completed[d], s.workers[d])
  }

  /** The coordinator's phase and program counter. */
  function Now(s: State): Phase
    requires Sized(s)
  {
    s.phase[|s.pc| - 1]
  }

  function Lead(s: State): Pc
    requires Sized(s)
  {
    s.pc[|s.pc| - 1]
  }

  ghost predicate Tokens(s: State)
    requires Sized(s)
  {
    && (forall m :: m in s.net ==> Addressed(|s.pc|, m))
    && StopTokens(Now(s), s.phase, s.pc, s.net, s.stopQ)
    && SignalTokens(Now(s), Lead(s), s.phase, s.pc, s.net, s.signalQ)
    && AckTokens(Now(s), s.phase, Lead(s), s.net, s.ackQ)
    && AllFollow(Now(s), Lead(s), s.phase, s.pc)
    && (Exiting(Lead(s)) ==> s.stopFlag)
  }

  ghost predicate Inv(s: State, workers: nat) {
    NodesOk(s, workers) && Tokens(s)
  }

  // ---------- a manager's step within the phase ----------

  lemma {:induction false} SentNext(n: nat, d: nat, now: Phase, pc: Pc, exit: bool, e: nat)
    requires PcFits(n, d, now, pc) && d < n && e < n && e != d && !(IsCoordinator(n, d) && EndsPhase(n, d, pc))
    ensures Sent(now, PhaseAfter(n, d, now, pc), NextPc(n, d, now, pc, exit), e)
        <==> Sent(now, now, pc, e) || Stop(d, e) in Sends(n, d, now, pc)
    ensures Sends(n, d, now, pc)[Stop(d, e)] <= 1 && (Stop(d, e) in Sends(n, d, now, pc) ==> !Sent(now, now, pc, e))
  {
  }

  lemma {:induction false} OwnStopsOnly(n: nat, d: nat, now: Phase, pc: Pc, c: nat, e: nat)
    requires c != d
    ensures Sends(n, d, now, pc)[Stop(c, e)] == 0
  {
  }

  lemma {:induction false} TakenNext(n: nat, d: nat, now: Phase, pc: Pc, exit: bool)
    requires n >= 2 && d < n && PcFits(n, d, now, pc) && !(IsCoordinator(n, d) && EndsPhase(n, d, pc))
    ensures StopsTaken(n, now, PhaseAfter(n, d, now, pc), NextPc(n, d, now, pc, exit))
              == StopsTaken(n, now, now, pc) + if TakesStop(n, pc) then 1 else 0
  {
  }

  lemma {:induction false} ManageArrived(now: Phase, phase: seq<Phase>, pc: seq<Pc>, net: multiset<Message>, d: nat,
          exit: bool, e: nat)
    requires d < |pc| == |phase| && e < |pc| && phase[d] == now && PcFits(|pc|, d, now, pc[d])
    requires !(IsCoordinator(|pc|, d) && EndsPhase(|pc|, d, pc[d]))
    requires d != e ==> StopInTransit(now, phase, pc, net, d, e)
    ensures Arrived(now, phase[d := PhaseAfter(|pc|, d, now, pc[d])], pc[d := NextPc(|pc|, d, now, pc[d], exit)],
        net + Sends(|pc|, d, now, pc[d]), e)
         == Arrived(now, phase, pc, net, e)
  {
    hide NextPc, Sends, Sent, PcFits, PhaseAfter;
    if d != e {
      SentNext(|pc|, d, now, pc[d], exit, e);
    }
    forall c | c != d ensures Sends(|pc|, d, now, pc[d])[Stop(c, e)] == 0 {
      OwnStopsOnly(|pc|, d, now, pc[d], c, e);
    }
  }

  lemma {:induction false} ManageStops(now: Phase, phase: seq<Phase>, pc: seq<Pc>, net: multiset<Message>,
          stopQ: seq<nat>, d: nat, exit: bool)
    requires StopTokens(now, phase, pc, net, stopQ) && |pc| >= 2 && d < |pc| && phase[d] == now
    requires PcFits(|pc|, d, now, pc[d])
    requires !(IsCoordinator(|pc|, d) && EndsPhase(|pc|, d, pc[d])) && (TakesStop(|pc|, pc[d]) ==> stopQ[d] > 0)
    ensures StopTokens(now, phase[d := PhaseAfter(|pc|, d, now, pc[d])], pc[d := NextPc(|pc|, d, now, pc[d], exit)],
        net + Sends(|pc|, d, now, pc[d]),
                       if TakesStop(|pc|, pc[d]) then stopQ[d := stopQ[d] - 1] else stopQ)
  {
    hide NextPc, Sends, Sent, PcFits, Arrived, TakesStop, StopsTaken, PhaseAfter, EndsPhase;
    var n := |pc|;
    var phase1, pc1, net1 :=
        phase[d := PhaseAfter(n, d, now, pc[d])], pc[d := NextPc(n, d, now, pc[d], exit)],
            net + Sends(n, d, now, pc[d]);
    forall c, e | 0 <= c < n && 0 <= e < n && c != e ensures StopInTransit(now, phase1, pc1, net1, c, e) {
      assert StopInTransit(now, phase, pc, net, c, e);
      if c == d {
        SentNext(n, d, now, pc[d], exit, e);
      } else {
        OwnStopsOnly(n, d, now, pc[d], c, e);
      }
    }
    TakenNext(n, d, now, pc[d], exit);
    forall e | 0 <= e < n ensures Arrived(now, phase1, pc1, net1, e) == Arrived(now, phase, pc, net, e) {
      assert d != e ==> StopInTransit(now, phase, pc, net, d, e);
      ManageArrived(now, phase, pc, net, d, exit, e);
    }
  }

  /** What the coordinator's step does to the signal of node `e`. */
  lemma {:induction false} LeadSignals(n: nat, now: Phase, lead: Pc, exit: bool, e: nat)
    requires n >= 2 && PcFits(n, n - 1, now, lead) && e < n - 1 && !EndsPhase(n, n - 1, lead)
    ensures var lead1, sends := NextPc(n, n - 1, now, lead, exit), Sends(n, n - 1, now, lead);
            && (Signalled(lead1, e) <==> Signalled(lead, e) || sends[Signal(e, SignalValue(now, lead))] == 1)
            && (Signalled(lead, e) ==> sends[Signal(e, SignalValue(now, lead))] == 0)
            && sends[Signal(e, SignalValue(now, lead))] <= 1
            && (forall u :: u != SignalValue(now, lead) ==> sends[Signal(e, u)] == 0)
            && (SignalValue(now, lead1) == SignalValue(now, lead) || (!Signalled(lead, e) && !Signalled(lead1, e)))
  {
  }

  lemma {:induction false} LeadKeepsSignal(n: nat, now: Phase, lead: Pc, exit: bool, phase: Phase, pc: Pc,
          net: multiset<Message>, queue: seq<Status>, e: nat)
    requires SignalToken(now, lead, phase, pc, net, queue, e)
    requires n >= 2 && PcFits(n, n - 1, now, lead) && e < n - 1 && !EndsPhase(n, n - 1, lead)
    ensures SignalToken(now, NextPc(n, n - 1, now, lead, exit), phase, pc, net + Sends(n, n - 1, now, lead), queue, e)
  {
    hide NextPc, Sends, Signalled, SignalValue, PcFits, Entered, EndsPhase;
    LeadSignals(n, now, lead, exit, e);
  }

  lemma {:induction false} NoSignalsFrom(n: nat, d: nat, phase: Phase, pc: Pc, m: Message)
    requires PcFits(n, d, phase, pc) && !IsCoordinator(n, d) && m.Signal?
    ensures Sends(n, d, phase, pc)[m] == 0
  {
  }

  lemma {:induction false} NodeKeepsSignal(n: nat, d: nat, now: Phase, lead: Pc, exit: bool, pc: Pc,
          net: multiset<Message>, queue: seq<Status>)
    requires SignalToken(now, lead, now, pc, net, queue, d)
    requires n >= 2 && d < n - 1 && PcFits(n, d, now, pc) && (pc.WaitSignal? ==> queue != [])
    ensures SignalToken(now, lead, PhaseAfter(n, d, now, pc), NextPc(n, d, now, pc, exit), net + Sends(n, d, now, pc),
                        if pc.WaitSignal? then queue[1..] else queue, d)
    ensures pc.WaitSignal? ==> queue == [SignalValue(now, lead)] && Signalled(lead, d)
  {
    hide Sends, Signalled, SignalValue, PcFits;
    forall u ensures Sends(n, d, now, pc)[Signal(d, u)] == 0 {
      NoSignalsFrom(n, d, now, pc, Signal(d, u));
    }
    EnteredNext(n, d, now, pc, exit);
    hide Entered, NextPc, PhaseAfter;
  }

  lemma {:induction false} EnteredNext(n: nat, d: nat, now: Phase, pc: Pc, exit: bool)
    requires n >= 2 && d < n - 1 && PcFits(n, d, now, pc)
    ensures Entered(now, PhaseAfter(n, d, now, pc), NextPc(n, d, now, pc, exit))
    ensures Entered(now, now, pc) <==> !pc.WaitSignal?
  {
  }

  lemma {:induction false} OthersKeepSignal(n: nat, d: nat, now: Phase, lead: Pc, pc: Pc, phase: Phase, at: Pc,
          net: multiset<Message>, queue: seq<Status>, e: nat)
    requires SignalToken(now, lead, phase, at, net, queue, e) && d < n - 1 && PcFits(n, d, now, pc)
    ensures SignalToken(now, lead, phase, at, net + Sends(n, d, now, pc), queue, e)
  {
    hide Sends, Signalled, SignalValue, PcFits, Entered;
    forall u ensures Sends(n, d, now, pc)[Signal(e, u)] == 0 {
      NoSignalsFrom(n, d, now, pc, Signal(e, u));
    }
  }

  lemma {:induction false} ManageSignals(now: Phase, phase: seq<Phase>, pc: seq<Pc>, net: multiset<Message>,
          signalQ: seq<seq<Status>>, d: nat, exit: bool)
    requires |pc| >= 2 && SignalTokens(now, pc[|pc| - 1], phase, pc, net, signalQ) && d < |pc| && phase[d] == now
    requires PcFits(|pc|, d, now, pc[d])
    requires !(IsCoordinator(|pc|, d) && EndsPhase(|pc|, d, pc[d])) && (pc[d].WaitSignal? ==> signalQ[d] != [])
    ensures var pc1 := pc[d := NextPc(|pc|, d, now, pc[d], exit)];
            SignalTokens(now, pc1[|pc| - 1], phase[d := PhaseAfter(|pc|, d, now, pc[d])], pc1,
                net + Sends(|pc|, d, now, pc[d]),
                         if pc[d].WaitSignal? then signalQ[d := signalQ[d][1..]] else signalQ)
  {
    hide NextPc, Sends, PcFits, SignalToken, EndsPhase;
    var n := |pc|;
    var phase1, pc1, net1 :=
        phase[d := PhaseAfter(n, d, now, pc[d])], pc[d := NextPc(n, d, now, pc[d], exit)],
            net + Sends(n, d, now, pc[d]);
    var q1 := if pc[d].WaitSignal? then signalQ[d := signalQ[d][1..]] else signalQ;
    forall e | 0 <= e < n - 1 ensures SignalToken(now, pc1[n - 1], phase1[e], pc1[e], net1, q1[e], e) {
      assert SignalToken(now, pc[n - 1], phase[e], pc[e], net, signalQ[e], e);
      if d == n - 1 {
        LeadKeepsSignal(n, now, pc[d], exit, phase[e], pc[e], net, signalQ[e], e);
        CoordinatorPhase(n, now, pc[d]);
      } else if d == e {
        NodeKeepsSignal(n, d, now, pc[n - 1], exit, pc[d], net, signalQ[d]);
      } else {
        OthersKeepSignal(n, d, now, pc[n - 1], pc[d], phase[e], pc[e], net, signalQ[e], e);
      }
    }
    if d == n - 1 {
      CoordinatorPhase(n, now, pc[d]);
    }
  }

  lemma {:induction false} CoordinatorPhase(n: nat, now: Phase, lead: Pc)
    requires n >= 2 && PcFits(n, n - 1, now, lead)
    ensures !lead.WaitSignal? && (!EndsPhase(n, n - 1, lead) ==> PhaseAfter(n, n - 1, now, lead) == now)
  {
  }

  lemma {:induction false} AckNext(n: nat, d: nat, now: Phase, pc: Pc, exit: bool, c: nat)
    requires n >= 2 && d < n && PcFits(n, d, now, pc) && !(IsCoordinator(n, d) && EndsPhase(n, d, pc))
    ensures Sends(n, d, now, pc)[Ack(c)] == if pc.Acks? && !IsCoordinator(n, d) && c == d then 1 else 0
    ensures PhaseAfter(n, d, now, pc) != now <==> pc.Acks? && !IsCoordinator(n, d)
    ensures IsCoordinator(n, d) ==>
        AcksTaken(NextPc(n, d, now, pc, exit)) == AcksTaken(pc) + if TakesAck(n, d, pc) then 1 else 0
    ensures !IsCoordinator(n, d) ==> !TakesAck(n, d, pc)
  {
  }

  lemma {:induction false} ManageAcks(now: Phase, phase: seq<Phase>, pc: seq<Pc>, net: multiset<Message>, ackQ: nat,
          d: nat, exit: bool)
    requires 2 <= |pc| == |phase| && AckTokens(now, phase, pc[|pc| - 1], net, ackQ) && d < |pc| && phase[d] == now
    requires PcFits(|pc|, d, now, pc[d])
    requires !(IsCoordinator(|pc|, d) && EndsPhase(|pc|, d, pc[d])) && (TakesAck(|pc|, d, pc[d]) ==> ackQ > 0)
    ensures var pc1 := pc[d := NextPc(|pc|, d, now, pc[d], exit)];
            AckTokens(now, phase[d := PhaseAfter(|pc|, d, now, pc[d])], pc1[|pc| - 1], net + Sends(|pc|, d, now, pc[d]),
                      if TakesAck(|pc|, d, pc[d]) then ackQ - 1 else ackQ)
  {
    hide NextPc, Sends, PcFits, EndsPhase, AcksTaken, PhaseAfter, TakesAck;
    var n := |pc|;
    var phase1, net1 := phase[d := PhaseAfter(n, d, now, pc[d])], net + Sends(n, d, now, pc[d]);
    forall c | 0 <= c < n - 1
      ensures AckInTransit(now, phase1, net1, c)
      ensures c in Acknowledged(now, phase1, net1) <==> c in Acknowledged(now, phase, net)
    {
      assert AckInTransit(now, phase, net, c);
      AckNext(n, d, now, pc[d], exit, c);
    }
    AckNext(n, d, now, pc[d], exit, 0);
    assert Acknowledged(now, phase1, net1) == Acknowledged(now, phase, net);
  }

  lemma {:induction false} LeadFollow(n: nat, now: Phase, lead: Pc, exit: bool, phase: Phase, pc: Pc,
          net: multiset<Message>, queue: seq<Status>, e: nat)
    requires Follows(now, lead, phase, pc) && SignalToken(now, lead, phase, pc, net, queue, e)
    requires n >= 2 && PcFits(n, n - 1, now, lead) && !EndsPhase(n, n - 1, lead)
    ensures Follows(now, NextPc(n, n - 1, now, lead, exit), phase, pc)
    ensures Exiting(NextPc(n, n - 1, now, lead, exit)) ==> Exiting(lead) || (lead.CheckFlag? && exit)
  {
  }

  lemma {:induction false} NodeFollows(n: nat, d: nat, now: Phase, lead: Pc, pc: Pc, exit: bool)
    requires Follows(now, lead, now, pc) && n >= 2 && d < n - 1 && PcFits(n, d, now, pc)
    requires pc.WaitSignal? ==> (exit <==> Exiting(lead))
    ensures Follows(now, lead, PhaseAfter(n, d, now, pc), NextPc(n, d, now, pc, exit))
  {
  }

  /** A manager that can move is in the coordinator's phase, and it leaves its loop only in a
      READ phase: the signal it takes has the value the code insists on. */
  lemma {:induction false} MoverFacts(s: State, d: nat)
    requires Sized(s) && Tokens(s) && d < |s.pc| && ManagerEnabled(s, d)
    requires PcFits(|s.pc|, |s.pc| - 1, Now(s), Lead(s)) && PcFits(|s.pc|, d, s.phase[d], s.pc[d])
    ensures s.phase[d] == Now(s) && (Exits(s, d) ==> !s.phase[d].commit)
    ensures s.pc[d].WaitSignal? ==>
              && s.signalQ[d] == [SignalValue(Now(s), Lead(s))]
              && (Exits(s, d) <==> Exiting(Lead(s)))
              && (s.signalQ[d][0] == if s.phase[d].commit then COMMIT else if Exiting(Lead(s)) then EXIT else READ)
  {
    hide StopTokens, AckTokens;
    if d < |s.pc| - 1 {
      assert SignalToken(Now(s), Lead(s), s.phase[d], s.pc[d], s.net, s.signalQ[d], d);
      assert Follows(Now(s), Lead(s), s.phase[d], s.pc[d]);
    }
  }

  lemma {:induction false} ManageFollow(s: State, d: nat)
    requires Sized(s) && Tokens(s) && d < |s.pc| && ManagerEnabled(s, d) && s.phase[d] == Now(s)
    requires PcFits(|s.pc|, |s.pc| - 1, Now(s), Lead(s)) && PcFits(|s.pc|, d, s.phase[d], s.pc[d])
    requires s.pc[d].WaitSignal? ==> (Exits(s, d) <==> Exiting(Lead(s)))
    requires !(IsCoordinator(|s.pc|, d) && EndsPhase(|s.pc|, d, s.pc[d]))
    ensures var pc1 := s.pc[d := NextPc(|s.pc|, d, s.phase[d], s.pc[d], Exits(s, d))];
            && AllFollow(Now(s), pc1[|s.pc| - 1], s.phase[d := PhaseAfter(|s.pc|, d, s.phase[d], s.pc[d])], pc1)
            && (Exiting(pc1[|s.pc| - 1]) ==> s.stopFlag)
  {
    hide StopTokens, AckTokens, NextPc, PcFits, SignalToken, Follows, EndsPhase, PhaseAfter, Exiting;
    var n := |s.pc|;
    CoordinatorPhase(n, Now(s), Lead(s));
    forall e | 0 <= e < n - 1
      ensures Follows(Now(s), Lead(s), s.phase[e], s.pc[e])
      ensures d == n - 1 ==> Follows(Now(s), NextPc(n, d, s.phase[d], s.pc[d], Exits(s, d)), s.phase[e], s.pc[e])
      ensures d == n - 1 ==> (Exiting(NextPc(n, d, s.phase[d], s.pc[d], Exits(s, d))) ==> s.stopFlag)
      ensures e == d ==>
          Follows(Now(s), Lead(s), PhaseAfter(n, d, s.phase[d], s.pc[d]),
              NextPc(n, d, s.phase[d], s.pc[d], Exits(s, d)))
    {
      assert SignalToken(Now(s), Lead(s), s.phase[e], s.pc[e], s.net, s.signalQ[e], e);
      assert Follows(Now(s), Lead(s), s.phase[e], s.pc[e]);
      if d == n - 1 {
        LeadFollow(n, Now(s), Lead(s), Exits(s, d), s.phase[e], s.pc[e], s.net, s.signalQ[e], e);
      }
      if d == e {
        NodeFollows(n, d, Now(s), Lead(s), s.pc[d], Exits(s, d));
      }
    }
    assert 0 <= n - 2 < n - 1;
    assert Follows(Now(s), Lead(s), s.phase[n - 2], s.pc[n - 2]);
  }

  lemma {:induction false} SendsAddressed(n: nat, d: nat, phase: Phase, pc: Pc, m: Message)
    requires PcFits(n, d, phase, pc) && d < n && m in Sends(n, d, phase, pc)
    ensures Addressed(n, m)
  {
  }

  lemma {:induction false} ManageKeepsTokens(s: State, workers: nat, d: nat)
    requires Sized(s) && d < |s.pc| && ManagerEnabled(s, d) && Inv(s, workers)
    requires !(IsCoordinator(|s.pc|, d) && EndsPhase(|s.pc|, d, s.pc[d]))
    ensures Tokens(ManagerStep(s, d))
  {
    hide Local, StopTokens, SignalTokens, AckTokens, AllFollow, PcFits, NextPc, NextStatus, NextStarted, NextCompleted,
        Exits;
    var n, t := |s.pc|, ManagerStep(s, d);
    MoverFacts(s, d);
    CoordinatorPhase(n, Now(s), Lead(s));
    ManageStops(Now(s), s.phase, s.pc, s.net, s.stopQ, d, Exits(s, d));
    ManageSignals(Now(s), s.phase, s.pc, s.net, s.signalQ, d, Exits(s, d));
    ManageAcks(Now(s), s.phase, s.pc, s.net, s.ackQ, d, Exits(s, d));
    ManageFollow(s, d);
    forall m | m in Sends(n, d, s.phase[d], s.pc[d]) ensures Addressed(n, m) {
      SendsAddressed(n, d, s.phase[d], s.pc[d], m);
    }
    assert Now(t) == Now(s);
    assert t.phase == s.phase[d := PhaseAfter(n, d, s.phase[d], s.pc[d])];
  }

  lemma {:induction false} ManageKeepsNodes(s: State, workers: nat, d: nat)
    requires Inv(s, workers) && d < |s.pc| && ManagerEnabled(s, d)
    ensures NodesOk(ManagerStep(s, d), workers)
  {
    hide Local, Tokens, PcFits, NextPc, NextStatus, NextStarted, NextCompleted, Exits;
    MoverFacts(s, d);
    LocalManage(|s.pc|, d, s.phase[d], s.pc[d], s.epoch[d], s.status[d], s.started[d], s.completed[d], s.workers[d],
        Exits(s, d));
    CountersNext(|s.pc|, d, s.phase[d], s.pc[d], Exits(s, d));
  }

  // ---------- the coordinator ends the phase ----------

  /** A manager that has consumed `n - 1` STOP messages has consumed exactly one of the current
      phase from every other node, none of them is still in transit, and its queue is empty. */
  lemma {:induction false} AllStopsTaken(now: Phase, phase: seq<Phase>, pc: seq<Pc>, net: multiset<Message>,
          stopQ: seq<nat>, d: nat)
    requires StopTokens(now, phase, pc, net, stopQ) && d < |pc| && StopsTaken(|pc|, now, phase[d], pc[d]) == |pc| - 1
    ensures stopQ[d] == 0
    ensures forall c :: 0 <= c < |pc| && c != d ==> Sent(now, phase[c], pc[c], d) && net[Stop(c, d)] == 0
  {
    var a := Arrived(now, phase, pc, net, d);
    AllOthers(a, |pc|, d);
    assert |a| == stopQ[d] + StopsTaken(|pc|, now, phase[d], pc[d]);
    forall c | 0 <= c < |pc| && c != d ensures Sent(now, phase[c], pc[c], d) && net[Stop(c, d)] == 0 {
      assert c in a;
    }
  }

  lemma {:induction false} AcksAreExact(now: Phase, phase: seq<Phase>, lead: Pc, net: multiset<Message>, ackQ: nat)
    requires |phase| >= 2 && AckTokens(now, phase, lead, net, ackQ) && AcksTaken(lead) >= |phase| - 1
    ensures ackQ == 0 && forall c :: 0 <= c < |phase| - 1 ==> phase[c] != now && net[Ack(c)] == 0
  {
    var n, a := |phase|, Acknowledged(now, phase, net);
    AllOthers(a, n, n - 1);
    forall c | 0 <= c < n - 1 ensures phase[c] != now && net[Ack(c)] == 0 {
      assert c in a;
    }
  }

  /** Nothing of the phase that ended is left, and every node stands before the next one. */
  ghost predicate Quiet(s: State, now: Phase)
    requires Sized(s)
  {
    && s.ackQ == 0 && s.net == multiset{}
    && (forall d :: 0 <= d < |s.pc| ==> s.stopQ[d] == 0 && s.signalQ[d] == [])
    && forall d :: 0 <= d < |s.pc| - 1 ==> s.phase[d] == NextPhase(now) && s.pc[d] == WaitSignal
  }

  lemma {:induction false} NoMessage(s: State, m: Message)
    requires Sized(s) && Tokens(s) && EndsPhase(|s.pc|, |s.pc| - 1, Lead(s))
    ensures m !in s.net
  {
    hide StopTokens, SignalTokens, AckTokens;
    var n, now := |s.pc|, Now(s);
    AcksAreExact(now, s.phase, Lead(s), s.net, s.ackQ);
    if m in s.net {
      match m
      case Signal(d, v) => SignalSpent(now, Lead(s), s.phase, s.pc, s.net, s.signalQ, d);
      case Stop(c, d) => AllStopsTaken(now, s.phase, s.pc, s.net, s.stopQ, d);
      case Ack(c) =>
    }
  }

  lemma {:induction false} PhaseEndIsQuiet(s: State)
    requires Sized(s) && Tokens(s) && EndsPhase(|s.pc|, |s.pc| - 1, Lead(s))
    ensures Quiet(s, Now(s))
  {
    hide StopTokens, SignalTokens, AckTokens, SignalToken, StopInTransit, AckInTransit;
    var n, now := |s.pc|, Now(s);
    AcksAreExact(now, s.phase, Lead(s), s.net, s.ackQ);
    forall d | 0 <= d < n
      ensures s.stopQ[d] == 0
    {
      AllStopsTaken(now, s.phase, s.pc, s.net, s.stopQ, d);
    }
    forall d | 0 <= d < n - 1
      ensures s.phase[d] == NextPhase(now) && s.pc[d] == WaitSignal && s.signalQ[d] == []
    {
      assert Follows(now, Lead(s), s.phase[d], s.pc[d]);
      SignalSpent(now, Lead(s), s.phase, s.pc, s.net, s.signalQ, d);
    }
    SignalSpent(now, Lead(s), s.phase, s.pc, s.net, s.signalQ, 0);
    forall m ensures m !in s.net {
      if m in s.net {
        NoMessage(s, m);
      }
    }
    assert s.net == multiset{};
  }

  lemma {:induction false} SignalSpent(now: Phase, lead: Pc, phase: seq<Phase>, pc: seq<Pc>, net: multiset<Message>,
          signalQ: seq<seq<Status>>, d: nat)
    requires SignalTokens(now, lead, phase, pc, net, signalQ) && d < |pc| - 1 && phase[d] != now
    ensures signalQ[d] == [] && (forall v :: net[Signal(d, v)] == 0) && signalQ[|pc| - 1] == []
  {
    assert SignalToken(now, lead, phase[d], pc[d], net, signalQ[d], d);
    forall v ensures net[Signal(d, v)] == 0 {
    }
  }

  lemma {:induction false} QuietHasTokens(t: State)
    requires Sized(t) && t.ackQ == 0 && t.net == multiset{} && Rank(Lead(t)) <= 1 && !Lead(t).WaitSignal?
    requires forall d :: 0 <= d < |t.pc| ==> t.stopQ[d] == 0 && t.signalQ[d] == [] && t.phase[d] == Now(t)
    requires forall d :: 0 <= d < |t.pc| - 1 ==> t.pc[d] == WaitSignal
    ensures Tokens(t)
  {
    hide Arrived, Acknowledged;
    var n, now := |t.pc|, Now(t);
    forall d | 0 <= d < n
      ensures Arrived(now, t.phase, t.pc, t.net, d) == {} && StopsTaken(n, now, t.phase[d], t.pc[d]) == 0
    {
      NothingArrived(now, t.phase, t.pc, t.net, d);
    }
    NothingArrived(now, t.phase, t.pc, t.net, 0);
    forall c, d | 0 <= c < n && 0 <= d < n && c != d ensures StopInTransit(now, t.phase, t.pc, t.net, c, d) {
    }
    forall d | 0 <= d < n - 1
      ensures SignalToken(now, Lead(t), t.phase[d], t.pc[d], t.net, t.signalQ[d], d)
      ensures AckInTransit(now, t.phase, t.net, d)
      ensures Follows(now, Lead(t), t.phase[d], t.pc[d])
    {
    }
  }

  lemma {:induction false} NothingArrived(now: Phase, phase: seq<Phase>, pc: seq<Pc>, net: multiset<Message>, d: nat)
    requires |phase| == |pc| && forall d :: 0 <= d < |pc| ==> phase[d] == now && Rank(pc[d]) <= 1
    ensures Arrived(now, phase, pc, net, d) == {} && Acknowledged(now, phase, net) == {}
  {
  }

  lemma {:induction false} PhaseEndKeepsTokens(s: State, d: nat)
    requires Sized(s) && d < |s.pc| && ManagerEnabled(s, d) && IsCoordinator(|s.pc|, d) && EndsPhase(|s.pc|, d, s.pc[d])
    requires Tokens(s)
    ensures Tokens(ManagerStep(s, d))
  {
    hide StopTokens, SignalTokens, AckTokens, AllFollow, Tokens;
    PhaseEndIsQuiet(s);
    QuietHasTokens(ManagerStep(s, d));
  }

  // ---------- all steps ----------

  lemma {:induction false} ManageKeepsInv(s: State, workers: nat, d: nat)
    requires Sized(s) && Inv(s, workers) && Enabled(s, Manage(d))
    ensures Inv(ManagerStep(s, d), workers)
  {
    hide NodesOk, Tokens, ManagerStep, Inv, EndsPhase;
    ManageKeepsNodes(s, workers, d);
    if IsCoordinator(|s.pc|, d) && EndsPhase(|s.pc|, d, s.pc[d]) {
      Split(s, workers);
      PhaseEndKeepsTokens(s, d);
    } else {
      ManageKeepsTokens(s, workers, d);
    }
    Join(ManagerStep(s, d), workers);
  }

  lemma {:induction false} Split(s: State, workers: nat)
    requires Inv(s, workers)
    ensures NodesOk(s, workers) && Tokens(s)
  {
  }

  lemma {:induction false} Join(s: State, workers: nat)
    requires NodesOk(s, workers) && Tokens(s)
    ensures Inv(s, workers)
  {
  }

  lemma {:induction false} ExitsFit(s: State, workers: nat, d: nat)
    requires Inv(s, workers) && d < |s.pc|
    ensures Rank(s.pc[d]) > 14 ==> !s.phase[d].commit
  {
    hide Tokens, Local;
    assert PcFits(|s.pc|, d, s.phase[d], s.pc[d]);
  }

  lemma {:induction false} WorkKeepsInv(s: State, workers: nat, d: nat, w: nat)
    requires Sized(s) && Inv(s, workers) && Enabled(s, Work(d, w))
    ensures Inv(WorkerStep(s, d, w), workers)
  {
    hide Local, StopTokens, SignalTokens, AckTokens, AllFollow, PcFits, Starts, Completes;
    ExitsFit(s, workers, d);
    LocalWork(s.phase[d], s.pc[d], s.epoch[d], s.status[d], s.started[d], s.completed[d], s.workers[d], w);
  }

  lemma {:induction false} ArrivedGrows(now: Phase, phase: seq<Phase>, pc: seq<Pc>, net: multiset<Message>, c: nat,
          d: nat, e: nat)
    requires c < |pc| == |phase| && d < |pc| && c != d && Stop(c, d) in net && StopInTransit(now, phase, pc, net, c, d)
    ensures |Arrived(now, phase, pc, net - multiset{Stop(c, d)}, e)|
        == |Arrived(now, phase, pc, net, e)| + if e == d then 1 else 0
  {
    var net1 := net - multiset{Stop(c, d)};
    if e == d {
      assert Arrived(now, phase, pc, net1, d) == Arrived(now, phase, pc, net, d) + {c};
    } else {
      assert Arrived(now, phase, pc, net1, e) == Arrived(now, phase, pc, net, e);
    }
  }

  lemma {:induction false} DeliverStop(now: Phase, phase: seq<Phase>, pc: seq<Pc>, net: multiset<Message>,
          stopQ: seq<nat>, c: nat, d: nat)
    requires StopTokens(now, phase, pc, net, stopQ) && c < |pc| && d < |pc| && c != d && Stop(c, d) in net
    ensures StopTokens(now, phase, pc, net - multiset{Stop(c, d)}, stopQ[d := stopQ[d] + 1])
  {
    hide Arrived, Sent, StopsTaken;
    var net1 := net - multiset{Stop(c, d)};
    assert StopInTransit(now, phase, pc, net, c, d);
    forall a, e | 0 <= a < |pc| && 0 <= e < |pc| && a != e ensures StopInTransit(now, phase, pc, net1, a, e) {
      assert StopInTransit(now, phase, pc, net, a, e);
    }
    forall e | 0 <= e < |pc|
      ensures |Arrived(now, phase, pc, net1, e)| == |Arrived(now, phase, pc, net, e)| + if e == d then 1 else 0
    {
      ArrivedGrows(now, phase, pc, net, c, d, e);
    }
  }

  lemma {:induction false} DeliverOther(now: Phase, phase: seq<Phase>, pc: seq<Pc>, net: multiset<Message>,
          stopQ: seq<nat>, m: Message)
    requires StopTokens(now, phase, pc, net, stopQ) && !m.Stop?
    ensures StopTokens(now, phase, pc, net - multiset{m}, stopQ)
  {
    hide Sent, StopsTaken;
    var net1 := net - multiset{m};
    forall a, e | 0 <= a < |pc| && 0 <= e < |pc| && a != e ensures StopInTransit(now, phase, pc, net1, a, e) {
      assert StopInTransit(now, phase, pc, net, a, e);
    }
    forall e | 0 <= e < |pc| ensures Arrived(now, phase, pc, net1, e) == Arrived(now, phase, pc, net, e) {
    }
  }

  lemma {:induction false} DeliverSignal(now: Phase, lead: Pc, phase: Phase, pc: Pc, net: multiset<Message>,
          queue: seq<Status>, e: nat, m: Message)
    requires SignalToken(now, lead, phase, pc, net, queue, e) && m in net
    ensures SignalToken(now, lead, phase, pc, net - multiset{m},
        if m.Signal? && m.dst == e then queue + [m.status] else queue, e)
  {
    hide Signalled, Entered, SignalValue;
    var v := SignalValue(now, lead);
    if m.Signal? && m.dst == e {
      assert m == Signal(e, m.status) && (m.status != v ==> net[Signal(e, m.status)] == 0);
    }
  }

  lemma {:induction false} DeliverSignals(now: Phase, lead: Pc, phase: seq<Phase>, pc: seq<Pc>, net: multiset<Message>,
          signalQ: seq<seq<Status>>, m: Message)
    requires SignalTokens(now, lead, phase, pc, net, signalQ) && m in net && Addressed(|pc|, m)
    ensures SignalTokens(now, lead, phase, pc, net - multiset{m},
        if m.Signal? then signalQ[m.dst := signalQ[m.dst] + [m.status]] else signalQ)
  {
    hide SignalToken;
    var q1 := if m.Signal? then signalQ[m.dst := signalQ[m.dst] + [m.status]] else signalQ;
    forall e | 0 <= e < |pc| - 1 ensures SignalToken(now, lead, phase[e], pc[e], net - multiset{m}, q1[e], e) {
      assert SignalToken(now, lead, phase[e], pc[e], net, signalQ[e], e);
      DeliverSignal(now, lead, phase[e], pc[e], net, signalQ[e], e, m);
    }
  }

  lemma {:induction false} DeliverAcks(now: Phase, phase: seq<Phase>, lead: Pc, net: multiset<Message>, ackQ: nat,
          m: Message)
    requires AckTokens(now, phase, lead, net, ackQ) && m in net && Addressed(|phase|, m)
    ensures AckTokens(now, phase, lead, net - multiset{m}, if m.Ack? then ackQ + 1 else ackQ)
  {
    var net1 := net - multiset{m};
    forall c | 0 <= c < |phase| - 1 ensures AckInTransit(now, phase, net1, c) {
      assert AckInTransit(now, phase, net, c);
    }
    if m.Ack? {
      assert AckInTransit(now, phase, net, m.src);
      assert Acknowledged(now, phase, net1) == Acknowledged(now, phase, net) + {m.src};
    } else {
      assert Acknowledged(now, phase, net1) == Acknowledged(now, phase, net);
    }
  }

  lemma {:induction false} DeliverKeepsInv(s: State, workers: nat, m: Message)
    requires Sized(s) && Inv(s, workers) && Enabled(s, Deliver(m))
    ensures Inv(DeliverStep(s, m), workers)
  {
    hide Local, StopTokens, SignalTokens, AckTokens, AllFollow, PcFits;
    if m.Stop? {
      DeliverStop(Now(s), s.phase, s.pc, s.net, s.stopQ, m.src, m.dst);
    } else {
      DeliverOther(Now(s), s.phase, s.pc, s.net, s.stopQ, m);
    }
    DeliverSignals(Now(s), Lead(s), s.phase, s.pc, s.net, s.signalQ, m);
    DeliverAcks(Now(s), s.phase, Lead(s), s.net, s.ackQ, m);
  }

  lemma {:induction false} InitHasInv(s: State, n: nat, workers: nat)
    requires Init(s, n, workers)
    ensures Inv(s, workers)
  {
    hide Tokens;
    QuietHasTokens(s);
  }

  lemma {:induction false} FlagKeepsInv(s: State, workers: nat)
    requires Inv(s, workers)
    ensures Inv(s.(stopFlag := true), workers)
  {
    hide Local, StopTokens, SignalTokens, AckTokens, AllFollow, PcFits;
  }

  lemma {:induction false} SizedByInv(s: State, workers: nat)
    requires Inv(s, workers)
    ensures Sized(s)
  {
  }

  lemma {:induction false} StepKeepsInv(s: State, t: State, workers: nat)
    requires Inv(s, workers) && Step(s, t)
    ensures Inv(t, workers) && |t.pc| == |s.pc|
  {
    hide Inv, ManagerStep, WorkerStep, DeliverStep;
    SizedByInv(s, workers);
    var a :| Enabled(s, a) && t == Next(s, a);
    match a
    case Manage(d) => ManageKeepsInv(s, workers, d);
    case Work(d, w) => WorkKeepsInv(s, workers, d, w);
    case Deliver(m) => DeliverKeepsInv(s, workers, m);
    case RaiseStopFlag => FlagKeepsInv(s, workers);
  }

  /** The invariant holds all along every run. */
  lemma {:induction false} RunKeepsInv(run: seq<State>, n: nat, workers: nat, i: nat)
    requires IsRun(run, n, workers) && i < |run|
    ensures Inv(run[i], workers) && |run[i].pc| == n
  {
    if i == 0 {
      InitHasInv(run[0], n, workers);
    } else {
      RunKeepsInv(run, n, workers, i - 1);
      StepKeepsInv(run[i - 1], run[i], workers);
    }
  }

  // ---------- safety ----------

  lemma {:induction false} NodeFacts(s: State, workers: nat, d: nat)
    requires Inv(s, workers) && d < |s.pc|
    ensures Sized(s) && s.status[d] == StatusAt(s.phase[d], s.pc[d]) && s.epoch[d] == EpochAt(s.phase[d], s.pc[d])
    ensures |s.workers[d]| == workers
        && forall w :: 0 <= w < workers ==> ThreadFits(s.phase[d], s.pc[d], s.workers[d][w])
    ensures PcFits(|s.pc|, d, s.phase[d], s.pc[d])
    ensures s.phase[d] == Now(s) || (s.phase[d] == NextPhase(Now(s)) && s.pc[d].WaitSignal?)
  {
    hide StopTokens, SignalTokens, AckTokens, ThreadFits, PcFits;
    if d < |s.pc| - 1 {
      assert Follows(Now(s), Lead(s), s.phase[d], s.pc[d]);
    }
  }

  /** While one node is in the READ phase no node is in the COMMIT phase. */
  lemma {:induction false} NeverReadAndCommit(run: seq<State>, n: nat, workers: nat, i: nat, c: nat, d: nat)
    requires IsRun(run, n, workers) && i < |run| && c < n && d < n
    ensures |run[i].status| == n && !(run[i].status[c] == READ && run[i].status[d] == COMMIT)
  {
    hide Inv, IsRun, ThreadFits, PcFits;
    RunKeepsInv(run, n, workers, i);
    NodeFacts(run[i], workers, c);
    NodeFacts(run[i], workers, d);
  }

  /** The epochs of two nodes never differ by more than one, and all are equal while any node is
      in the READ phase. */
  lemma {:induction false} EpochsAgree(run: seq<State>, n: nat, workers: nat, i: nat, c: nat, d: nat)
    requires IsRun(run, n, workers) && i < |run| && c < n && d < n
    ensures |run[i].epoch| == |run[i].status| == n && run[i].epoch[c] <= run[i].epoch[d] + 1
    ensures run[i].epoch[d] <= run[i].epoch[c] + 1
    ensures (exists e :: 0 <= e < n && run[i].status[e] == READ) ==> run[i].epoch[c] == run[i].epoch[d]
  {
    hide Inv, IsRun, ThreadFits, PcFits;
    RunKeepsInv(run, n, workers, i);
    NodeFacts(run[i], workers, c);
    NodeFacts(run[i], workers, d);
    if e :| 0 <= e < n && run[i].status[e] == READ {
      NodeFacts(run[i], workers, e);
    }
  }

  lemma {:induction false} InvParts(s: State, workers: nat)
    requires Inv(s, workers)
    ensures Sized(s) && StopTokens(Now(s), s.phase, s.pc, s.net, s.stopQ)
    ensures SignalTokens(Now(s), Lead(s), s.phase, s.pc, s.net, s.signalQ)
    ensures AckTokens(Now(s), s.phase, Lead(s), s.net, s.ackQ) && AllFollow(Now(s), Lead(s), s.phase, s.pc)
    ensures Tokens(s) && (Exiting(Lead(s)) ==> s.stopFlag)
  {
  }

  /** In every run a manager that has consumed `n - 1` STOP messages in the coordinator's phase has
      consumed one of that phase from every other node: each has sent it, none is in transit, and
      the queue is empty. */
  lemma {:induction false} StopsAreExact(run: seq<State>, n: nat, workers: nat, i: nat, d: nat)
    requires IsRun(run, n, workers) && i < |run| && d < n
    ensures Sized(run[i]) && |run[i].pc| == n
    ensures StopsTaken(n, Now(run[i]), run[i].phase[d], run[i].pc[d]) == n - 1 ==>
              && run[i].stopQ[d] == 0
              && forall c :: 0 <= c < n && c != d ==>
                   Sent(Now(run[i]), run[i].phase[c], run[i].pc[c], d) && run[i].net[Stop(c, d)] == 0
  {
    hide Inv, IsRun, StopTokens, SignalTokens, AckTokens, AllFollow, Tokens, Sent, StopsTaken;
    var s := run[i];
    RunKeepsInv(run, n, workers, i);
    InvParts(s, workers);
    if StopsTaken(n, Now(s), s.phase[d], s.pc[d]) == n - 1 {
      AllStopsTaken(Now(s), s.phase, s.pc, s.net, s.stopQ, d);
    }
  }

  lemma {:induction false} PhaseWorkDone(s: State, workers: nat, c: nat, now: Phase, d: nat)
    requires Inv(s, workers) && Sized(s) && c < |s.pc| && now == Now(s) && c != d && Sent(now, s.phase[c], s.pc[c], d)
    ensures forall w :: 0 <= w < |s.workers[c]| ==> Progress(now, s.workers[c][w]) >= 3
  {
    hide Inv;
    NodeFacts(s, workers, c);
  }

  /** Once a manager is past its wait for STOP messages, its queue is empty, no STOP for it is in
      transit, and every thread on every node has done its work of the phase. */
  lemma {:induction false} BarrierHolds(run: seq<State>, n: nat, workers: nat, i: nat, d: nat)
    requires IsRun(run, n, workers) && i < |run| && d < n && |run[i].pc| == n && 9 <= Rank(run[i].pc[d]) <= 14
    ensures |run[i].stopQ| == |run[i].workers| == |run[i].phase| == n && run[i].stopQ[d] == 0
    ensures forall c :: 0 <= c < n ==> run[i].net[Stop(c, d)] == 0
    ensures forall c, w :: 0 <= c < n && 0 <= w < |run[i].workers[c]| ==>
        Progress(run[i].phase[d], run[i].workers[c][w]) >= 3
  {
    hide Inv, IsRun, StopTokens, SignalTokens, AckTokens, AllFollow, Progress, Sent, Tokens;
    var s := run[i];
    RunKeepsInv(run, n, workers, i);
    InvParts(s, workers);
    NodeFacts(s, workers, d);
    AllStopsTaken(Now(s), s.phase, s.pc, s.net, s.stopQ, d);
    NoOwnStop(s, d);
    forall c | 0 <= c < n ensures forall w :: 0 <= w < |s.workers[c]| ==> Progress(s.phase[d], s.workers[c][w]) >= 3 {
      if c != d {
        PhaseWorkDone(s, workers, c, Now(s), d);
      } else {
        OwnWorkDone(s, workers, d);
      }
    }
  }

  lemma {:induction false} NoOwnStop(s: State, d: nat)
    requires Sized(s) && Tokens(s)
    ensures s.net[Stop(d, d)] == 0
  {
    assert !Addressed(|s.pc|, Stop(d, d));
  }

  lemma {:induction false} OwnWorkDone(s: State, workers: nat, d: nat)
    requires Inv(s, workers) && Sized(s) && d < |s.pc| && 9 <= Rank(s.pc[d]) <= 14
    ensures forall w :: 0 <= w < |s.workers[d]| ==> Progress(s.phase[d], s.workers[d][w]) >= 3
  {
    hide Inv;
    NodeFacts(s, workers, d);
  }

  /** Each signal a manager takes has the value the code expects: COMMIT before a COMMIT phase,
      READ or EXIT before a READ phase. */
  lemma {:induction false} SignalIsExpected(run: seq<State>, n: nat, workers: nat, i: nat, d: nat)
    requires IsRun(run, n, workers) && i < |run| && d < n && |run[i].pc| == n && run[i].pc[d].WaitSignal?
    ensures |run[i].signalQ| == |run[i].phase| == n && |run[i].signalQ[d]| <= 1
    ensures run[i].signalQ[d] != [] ==>
              if run[i].phase[d].commit
              then run[i].signalQ[d][0] == COMMIT
              else run[i].signalQ[d][0] == READ || run[i].signalQ[d][0] == EXIT
  {
    hide Inv, IsRun;
    RunKeepsInv(run, n, workers, i);
    SignalAt(run[i], workers, d);
  }

  lemma {:induction false} SignalAt(s: State, workers: nat, d: nat)
    requires Inv(s, workers) && d < |s.pc| && s.pc[d].WaitSignal?
    ensures Sized(s) && |s.signalQ[d]| <= 1
    ensures s.signalQ[d] != [] ==>
        s.signalQ[d][0] == if s.phase[d].commit then COMMIT else if Exiting(Lead(s)) then EXIT else READ
  {
    hide Inv, StopTokens, AckTokens, Local, ThreadFits, PcFits, SignalToken;
    InvParts(s, workers);
    NodeFacts(s, workers, d);
    NodeFacts(s, workers, |s.pc| - 1);
    NotTheLead(|s.pc|, d, s.phase[d], s.pc[d]);
    assert SignalToken(Now(s), Lead(s), s.phase[d], s.pc[d], s.net, s.signalQ[d], d);
    SignalQueued(|s.pc|, Now(s), Lead(s), s.phase[d], s.pc[d], s.net, s.signalQ[d], d);
  }

  lemma {:induction false} NotTheLead(n: nat, d: nat, phase: Phase, pc: Pc)
    requires PcFits(n, d, phase, pc) && pc.WaitSignal?
    ensures d != n - 1
  {
  }

  lemma {:induction false} SignalQueued(n: nat, now: Phase, lead: Pc, phase: Phase, pc: Pc, net: multiset<Message>,
          queue: seq<Status>, d: nat)
    requires SignalToken(now, lead, phase, pc, net, queue, d) && n >= 1 && PcFits(n, n - 1, now, lead)
    ensures queue == []
        || (phase == now && queue == [if now.commit then COMMIT else if Exiting(lead) then EXIT else READ])
  {
  }

  lemma {:induction false} StatusChange(s: State, a: Action, d: nat)
    requires Sized(s) && Enabled(s, a) && d < |s.pc|
    ensures Next(s, a).status[d] == s.status[d] || Next(s, a).status[d] == NextStatus(s.phase[d], s.pc[d], s.status[d])
  {
  }

  /** A status word is overwritten only when every thread of the node has acted on it: READ and
      COMMIT when all have started, done their work and wait for the change, STOP when all have
      noticed it and wait for the next phase. */
  lemma {:induction false} StatusIsSeen(run: seq<State>, n: nat, workers: nat, i: nat, d: nat)
    requires IsRun(run, n, workers) && i + 1 < |run| && d < n
    ensures |run[i].status| == |run[i].workers| == |run[i].phase| == |run[i + 1].status| == n
    ensures run[i].status[d] != run[i + 1].status[d] ==>
              forall w :: 0 <= w < |run[i].workers[d]| ==>
                run[i].workers[d][w] == At(run[i].phase[d], if run[i].status[d] == STOP then Poll else Leave)
    ensures run[i].status[d] != run[i + 1].status[d] ==>
              || (run[i].status[d] == STOP && run[i + 1].status[d] == StatusOf(run[i].phase[d]))
              || (run[i].status[d] == StatusOf(run[i].phase[d]) && run[i + 1].status[d] == STOP)
              || (run[i].status[d] == STOP && run[i + 1].status[d] == EXIT && !run[i].phase[d].commit)
  {
    hide IsRun, Inv, Next, Enabled;
    var s, t := run[i], run[i + 1];
    StepOfRun(run, n, workers, i);
    RunKeepsInv(run, n, workers, i);
    NodeFacts(s, workers, d);
    hide ThreadFits, StatusAt, NextStatus, PcFits;
    var a :| Enabled(s, a) && t == Next(s, a);
    StatusChange(s, a, d);
    if s.status[d] != t.status[d] {
      StatusMove(n, d, s.phase[d], s.pc[d]);
      forall w | 0 <= w < workers
        ensures s.workers[d][w] == At(s.phase[d], if s.status[d] == STOP then Poll else Leave)
      {
        ThreadAtMove(s.phase[d], s.pc[d], s.workers[d][w]);
      }
    }
  }

  lemma {:induction false} StepOfRun(run: seq<State>, n: nat, workers: nat, i: nat)
    requires IsRun(run, n, workers) && i + 1 < |run|
    ensures Step(run[i], run[i + 1])
  {
    assert Step(run[i + 1 - 1], run[i + 1]);
  }

  lemma {:induction false} StatusMove(n: nat, d: nat, phase: Phase, pc: Pc)
    requires PcFits(n, d, phase, pc) && NextStatus(phase, pc, StatusAt(phase, pc)) != StatusAt(phase, pc)
    ensures var was, next := StatusAt(phase, pc), NextStatus(phase, pc, StatusAt(phase, pc));
            || (was == STOP && next == StatusOf(phase)) || (was == StatusOf(phase) && next == STOP)
            || (was == STOP && next == EXIT && !phase.commit)
  {
  }

  lemma {:induction false} ThreadAtMove(phase: Phase, pc: Pc, w: Worker)
    requires ThreadFits(phase, pc, w) && NextStatus(phase, pc, StatusAt(phase, pc)) != StatusAt(phase, pc)
    ensures w == At(phase, if StatusAt(phase, pc) == STOP then Poll else Leave)
  {
  }

  // ---------- progress ----------

  ghost predicate AllDone(s: State) {
    && Sized(s)
    && (forall d :: 0 <= d < |s.pc| ==> s.pc[d] == Done)
    && forall d, w :: 0 <= d < |s.pc| && 0 <= w < |s.workers[d]| ==> s.workers[d][w] == Exited
  }

  /** No thread, manager or message can move; only the stop flag might still be raised. */
  ghost predicate Stuck(s: State)
    requires Sized(s)
  {
    forall a :: a != RaiseStopFlag ==> !Enabled(s, a)
  }

  /** The only places where a manager can be held up. */
  predicate Idle(s: State, d: nat)
    requires Sized(s) && d < |s.pc|
  {
    var n, pc := |s.pc|, s.pc[d];
    || (pc.WaitSignal? && s.signalQ[d] == [])
    || (pc.WaitStops? && pc.k < n - 1 && s.stopQ[d] == 0)
    || (pc.Acks? && IsCoordinator(n, d) && pc.k < n - 1 && s.ackQ == 0)
    || pc.Done?
  }

  /** Threads never hold their manager up. */
  lemma {:induction false} ThreadsFinish(phase: Phase, pc: Pc, epoch: nat, status: Status, started: int, completed: int,
          ws: seq<Worker>)
    requires Local(phase, pc, epoch, status, started, completed, ws)
    requires forall w :: 0 <= w < |ws| ==> !WorkerEnabled(status, ws[w])
    ensures pc.WaitStarted? ==> started >= |ws|
    ensures pc.WaitDone? || pc.WaitLeft? ==> completed >= |ws|
    ensures pc.Done? && !phase.commit ==> forall w :: 0 <= w < |ws| ==> ws[w] == Exited
  {
    var rank := if pc.WaitStarted? then 2 else if pc.WaitDone? then 3 else 5;
    CountAll(ws, Past(phase, rank));
    forall w | 0 <= w < |ws|
      ensures pc.WaitStarted? || pc.WaitDone? || pc.WaitLeft? ==> Past(phase, rank)(ws[w])
      ensures pc.Done? && !phase.commit ==> ws[w] == Exited
    {
      assert ThreadFits(phase, pc, ws[w]) && !WorkerEnabled(status, ws[w]);
    }
  }

  lemma {:induction false} ManagerHeldUp(s: State, workers: nat, d: nat)
    requires Inv(s, workers) && Sized(s) && Stuck(s) && d < |s.pc|
    ensures Idle(s, d) && PcFits(|s.pc|, d, s.phase[d], s.pc[d])
    ensures s.pc[d].Done? ==> forall w :: 0 <= w < |s.workers[d]| ==> s.workers[d][w] == Exited
  {
    hide Tokens, Local, WorkerEnabled;
    assert !Enabled(s, Manage(d));
    forall w | 0 <= w < |s.workers[d]| ensures !WorkerEnabled(s.status[d], s.workers[d][w]) {
      assert !Enabled(s, Work(d, w));
    }
    ThreadsFinish(s.phase[d], s.pc[d], s.epoch[d], s.status[d], s.started[d], s.completed[d], s.workers[d]);
  }

  lemma {:induction false} StuckFacts(s: State, workers: nat)
    requires Inv(s, workers) && Sized(s) && Stuck(s)
    ensures s.net == multiset{}
    ensures forall d :: 0 <= d < |s.pc| ==> Idle(s, d) && PcFits(|s.pc|, d, s.phase[d], s.pc[d])
    ensures forall d, w :: 0 <= d < |s.pc| && s.pc[d].Done? && 0 <= w < |s.workers[d]| ==> s.workers[d][w] == Exited
  {
    hide StopTokens, SignalTokens, AckTokens, AllFollow, Local, ManagerEnabled, Idle, PcFits;
    forall m ensures m !in s.net {
      assert !Enabled(s, Deliver(m));
    }
    assert s.net == multiset{};
    forall d | 0 <= d < |s.pc|
      ensures Idle(s, d) && PcFits(|s.pc|, d, s.phase[d], s.pc[d])
      ensures s.pc[d].Done? ==> forall w :: 0 <= w < |s.workers[d]| ==> s.workers[d][w] == Exited
    {
      ManagerHeldUp(s, workers, d);
    }
  }

  /** A signalled node has left the wait for its signal: it is on the same side of the exit as the
      coordinator, and in a phase it has sent all its STOP messages. */
  lemma {:induction false} NodeMovedOn(s: State, d: nat)
    requires Sized(s) && s.net == multiset{} && d < |s.pc| - 1 && Idle(s, d) && Idle(s, |s.pc| - 1)
    requires PcFits(|s.pc|, |s.pc| - 1, Now(s), Lead(s))
    requires SignalToken(Now(s), Lead(s), s.phase[d], s.pc[d], s.net, s.signalQ[d], d)
    requires Follows(Now(s), Lead(s), s.phase[d], s.pc[d])
    ensures if Lead(s).Done? then s.pc[d].Done? else s.phase[d] != Now(s) || s.pc[d].WaitStops?
  {
  }

  lemma {:induction false} StopsSuffice(s: State, d: nat)
    requires Sized(s) && s.net == multiset{} && d < |s.pc| && Idle(s, d)
    requires |Arrived(Now(s), s.phase, s.pc, s.net, d)| == s.stopQ[d] + StopsTaken(|s.pc|, Now(s), s.phase[d], s.pc[d])
    requires forall c :: 0 <= c < |s.pc| ==> s.phase[c] != Now(s) || s.pc[c].WaitStops? || s.pc[c].Acks?
    ensures s.phase[d] != Now(s) || !s.pc[d].WaitStops?
  {
    AllOthers(Arrived(Now(s), s.phase, s.pc, s.net, d), |s.pc|, d);
    forall c | 0 <= c < |s.pc| && c != d ensures c in Arrived(Now(s), s.phase, s.pc, s.net, d) {
      StopFrom(s, c, d);
    }
    hide Arrived;
  }

  lemma {:induction false} StopFrom(s: State, c: nat, d: nat)
    requires Sized(s) && s.net == multiset{} && c < |s.pc| && c != d
    requires (s.phase[c] != Now(s) || s.pc[c].WaitStops? || s.pc[c].Acks?)
    ensures c in Arrived(Now(s), s.phase, s.pc, s.net, d)
  {
  }

  lemma {:induction false} AcksSuffice(s: State)
    requires Sized(s) && s.net == multiset{} && Idle(s, |s.pc| - 1)
    requires AckTokens(Now(s), s.phase, Lead(s), s.net, s.ackQ)
    requires forall c :: 0 <= c < |s.pc| - 1 ==> s.phase[c] != Now(s)
    ensures !Lead(s).Acks?
  {
    AllOthers(Acknowledged(Now(s), s.phase, s.net), |s.pc|, |s.pc| - 1);
    assert forall c :: 0 <= c < |s.pc| - 1 ==> c in Acknowledged(Now(s), s.phase, s.net);
  }

  lemma {:induction false} TokensAt(s: State, d: nat)
    requires Sized(s) && Tokens(s) && d < |s.pc|
    ensures |Arrived(Now(s), s.phase, s.pc, s.net, d)| == s.stopQ[d] + StopsTaken(|s.pc|, Now(s), s.phase[d], s.pc[d])
    ensures d < |s.pc| - 1 ==>
              && SignalToken(Now(s), Lead(s), s.phase[d], s.pc[d], s.net, s.signalQ[d], d)
              && Follows(Now(s), Lead(s), s.phase[d], s.pc[d])
  {
  }

  /** The coordinator cannot be held up inside a phase. */
  lemma {:induction false} LeadIsDone(s: State, workers: nat)
    requires Inv(s, workers) && Sized(s) && Stuck(s)
    ensures Lead(s).Done?
  {
    hide Inv, Stuck, StopTokens, SignalTokens, AckTokens, AllFollow, Tokens, SignalToken, Follows, Arrived, StopsTaken;
    var n := |s.pc|;
    InvParts(s, workers);
    StuckFacts(s, workers);
    if !Lead(s).Done? {
      forall d | 0 <= d < n ensures s.phase[d] != Now(s) || s.pc[d].WaitStops? || s.pc[d].Acks? {
        if d < n - 1 {
          TokensAt(s, d);
          NodeMovedOn(s, d);
        }
      }
      forall d | 0 <= d < n - 1 ensures s.phase[d] != Now(s) {
        TokensAt(s, d);
        StopsSuffice(s, d);
      }
      TokensAt(s, n - 1);
      StopsSuffice(s, n - 1);
      AcksSuffice(s);
    }
  }

  /** The protocol cannot deadlock: when nothing but the stop flag can move, the flag is up, every
      manager has returned and every thread has exited. */
  lemma {:induction false} StuckIsDone(s: State, workers: nat)
    requires Inv(s, workers) && Sized(s) && Stuck(s)
    ensures AllDone(s) && s.stopFlag
  {
    hide Inv, Stuck, StopTokens, SignalTokens, AckTokens, AllFollow, Tokens, SignalToken, Follows, Idle, PcFits,
        Arrived, StopsTaken;
    InvParts(s, workers);
    StuckFacts(s, workers);
    LeadIsDone(s, workers);
    forall d | 0 <= d < |s.pc| ensures s.pc[d] == Done {
      if d < |s.pc| - 1 {
        TokensAt(s, d);
        NodeMovedOn(s, d);
      }
    }
  }

  lemma {:induction false} RunsNeverDeadlock(run: seq<State>, n: nat, workers: nat)
    requires IsRun(run, n, workers)
    ensures var last := run[|run| - 1];
            Sized(last) && (Stuck(last) ==> AllDone(last) && last.stopFlag)
  {
    hide Inv, AllDone, Stuck;
    RunKeepsInv(run, n, workers, |run| - 1);
    SizedByInv(run[|run| - 1], workers);
    if Stuck(run[|run| - 1]) {
      StuckIsDone(run[|run| - 1], workers);
    }
  }
}
