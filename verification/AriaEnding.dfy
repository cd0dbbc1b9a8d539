/** How the Aria managers come to an end: once the stop flag is up every run is short. */
module AriaEnding {
  import opened AriaBarrier
  import opened AriaGain

  // ---------- the last round ----------

  /** The stop flag is up, and the coordinator leaves its loop at the head of round `last` at the
      latest. */
  ghost predicate Closing(s: State, last: nat)
    requires Sized(s)
  {
    && s.stopFlag
    && (Number(Now(s)) < 2 * last || (Number(Now(s)) == 2 * last && (Lead(s).CheckFlag? || Exiting(Lead(s)))))
  }

  /** The round at whose head the coordinator leaves: this one, or the next. */
  function LastRound(s: State): nat
    requires Sized(s)
  {
    if Lead(s).CheckFlag? || Exiting(Lead(s)) then Now(s).round else Now(s).round + 1
  }

  lemma {:induction false} ClosingStarts(s: State, workers: nat)
    requires Inv(s, workers) && Sized(s) && s.stopFlag
    ensures Closing(s, LastRound(s)) && 2 * LastRound(s) - 2 <= Number(Now(s))
  {
    hide Tokens, Local;
    assert PcFits(|s.pc|, |s.pc| - 1, Now(s), Lead(s));
  }

  lemma {:induction false} LeadStays(n: nat, last: nat, phase: Phase, pc: Pc)
    requires n >= 2 && PcFits(n, n - 1, phase, pc) && !pc.Done?
    requires Number(phase) < 2 * last || (Number(phase) == 2 * last && (pc.CheckFlag? || Exiting(pc)))
    ensures var phase1 := if EndsPhase(n, n - 1, pc) then NextPhase(phase) else phase;
            var pc1 := NextPc(n, n - 1, phase, pc, pc.CheckFlag?);
            Number(phase1) < 2 * last || (Number(phase1) == 2 * last && (pc1.CheckFlag? || Exiting(pc1)))
  {
  }

  lemma {:induction false} ClosingStays(s: State, workers: nat, last: nat, a: Action)
    requires Inv(s, workers) && Sized(s) && Enabled(s, a) && Closing(s, last)
    ensures Closing(Next(s, a), last)
  {
    hide Tokens, Local, PcFits, NextPc, NextStatus, NextStarted, NextCompleted, Sends, NextWorker;
    if a.Manage? && a.d == |s.pc| - 1 {
      assert PcFits(|s.pc|, |s.pc| - 1, Now(s), Lead(s));
      NotAFollower(s, workers);
      LeadStays(|s.pc|, last, Now(s), Lead(s));
    }
  }

  lemma {:induction false} NotAFollower(s: State, workers: nat)
    requires Inv(s, workers) && Sized(s)
    ensures !Lead(s).WaitSignal?
  {
    hide Tokens, Local;
    assert PcFits(|s.pc|, |s.pc| - 1, Now(s), Lead(s));
  }

  /** All managers are in the coordinator's phase or in the next one, and all threads between their
      manager's phase and the one after it. */
  lemma {:induction false} Together(s: State, workers: nat, d: nat)
    requires Inv(s, workers) && Sized(s) && d < |s.pc|
    ensures Number(Now(s)) <= Number(s.phase[d]) <= Number(Now(s)) + 1 && PcFits(|s.pc|, d, s.phase[d], s.pc[d])
    ensures |s.workers[d]| == workers
    ensures forall w :: 0 <= w < workers && s.workers[d][w].At? ==>
              && Number(s.phase[d]) <= Number(s.workers[d][w].phase) <= Number(s.phase[d]) + 1
              && (s.workers[d][w].stage.Poll? || s.workers[d][w].phase == s.phase[d])
  {
    hide StopTokens, SignalTokens, AckTokens, PcFits;
    NodeFacts(s, workers, d);
    assert Number(NextPhase(Now(s))) == Number(Now(s)) + 1 && Number(NextPhase(s.phase[d])) == Number(s.phase[d]) + 1;
    forall w | 0 <= w < workers && s.workers[d][w].At?
      ensures s.workers[d][w].phase == s.phase[d]
          || (s.workers[d][w].phase == NextPhase(s.phase[d]) && s.workers[d][w].stage.Poll?)
    {
      assert ThreadFits(s.phase[d], s.pc[d], s.workers[d][w]);
    }
  }

  lemma {:induction false} StepGains(s: State, workers: nat, last: nat, a: Action)
    requires Inv(s, workers) && Sized(s) && Enabled(s, a) && Closing(s, last)
    ensures Gain(Next(s, a), 2 * last - 2) > Gain(s, 2 * last - 2)
  {
    hide Inv, Gain, ManagerStep, WorkerStep, DeliverStep, PcFits;
    var base := 2 * last - 2;
    match a
    case Manage(d) =>
      Together(s, workers, d);
      ManageGains(s, base, d);
    case Work(d, w) =>
      Together(s, workers, d);
      ThreadGains(base, s.status[d], s.workers[d][w]);
      WorkGains(s, base, d, w);
    case Deliver(m) =>
      DeliverGains(s, base, m);
    case RaiseStopFlag =>
  }

  // ---------- bounds ----------

  lemma {:induction false} GainUpper(s: State, workers: nat, last: nat)
    requires Inv(s, workers) && Sized(s) && Closing(s, last)
    ensures Gain(s, 2 * last - 2) <= 2 * ((71 + 20 * |s.pc|) * |s.pc|) + 21 * workers * |s.pc|
  {
    hide Inv, PcFits, Stride, Total, Position;
    var n, base := |s.pc|, 2 * last - 2;
    forall d | 0 <= d < n
      ensures Places(s, base)[d] <= 71 + 20 * n && Total(ThreadPlaces(base, s.workers[d])) <= 21 * workers
    {
      Together(s, workers, d);
      StrideUpper(n, Number(s.phase[d]) - base);
      PositionBound(n, d, s.phase[d], s.pc[d]);
      TotalUpper(ThreadPlaces(base, s.workers[d]), 21);
    }
    TotalUpper(Places(s, base), 71 + 20 * n);
    TotalUpper(AllThreadPlaces(base, s.workers), 21 * workers);
  }

  lemma {:induction false} GainLower(s: State, workers: nat, last: nat)
    requires Inv(s, workers) && Sized(s) && Closing(s, last) && 2 * last - 2 <= Number(Now(s))
    ensures Gain(s, 2 * last - 2) >= -(|s.pc| * (|s.pc| + 5))
  {
    hide Inv, Tokens, PcFits, Stride, Total, Position;
    var n, base := |s.pc|, 2 * last - 2;
    forall d | 0 <= d < n ensures Places(s, base)[d] >= 0 && Total(ThreadPlaces(base, s.workers[d])) >= 0 {
      Together(s, workers, d);
      StrideBounds(n, Number(s.phase[d]) - base);
      TotalLower(ThreadPlaces(base, s.workers[d]));
    }
    TotalLower(Places(s, base));
    TotalLower(AllThreadPlaces(base, s.workers));
    HasTokens(s, workers);
    FewMessages(s);
  }

  lemma {:induction false} BoundAddsUp(n: nat, workers: nat)
    ensures 2 * ((71 + 20 * n) * n) + 21 * workers * n + n * (n + 5) == n * (41 * n + 21 * workers + 147)
  {
    assert (71 + 20 * n) * n == 71 * n + 20 * (n * n);
    assert n * (n + 5) == n * n + 5 * n;
    assert n * (41 * n + 21 * workers + 147) == 41 * (n * n) + 21 * (workers * n) + 147 * n;
  }

  // ---------- the theorem ----------

  lemma {:induction false} RunStepGains(run: seq<State>, n: nat, workers: nat, last: nat, j: nat)
    requires IsRun(run, n, workers) && 0 < j < |run| && Sized(run[j - 1]) && Closing(run[j - 1], last)
    ensures Sized(run[j]) && Closing(run[j], last) && Gain(run[j], 2 * last - 2) > Gain(run[j - 1], 2 * last - 2)
  {
    hide IsRun, Inv, Closing, Gain, Next, Enabled;
    RunKeepsInv(run, n, workers, j - 1);
    StepOfRun(run, n, workers, j - 1);
    var a :| Enabled(run[j - 1], a) && run[j] == Next(run[j - 1], a);
    StepGains(run[j - 1], workers, last, a);
    ClosingStays(run[j - 1], workers, last, a);
  }

  lemma {:induction false} RunGains(run: seq<State>, n: nat, workers: nat, last: nat, i: nat, j: nat)
    requires IsRun(run, n, workers) && i <= j < |run| && Sized(run[i]) && Closing(run[i], last)
    ensures Sized(run[j]) && Closing(run[j], last) && Gain(run[j], 2 * last - 2) >= Gain(run[i], 2 * last - 2) + j - i
    decreases j
  {
    hide IsRun, Sized, Closing, Gain;
    if i < j {
      RunGains(run, n, workers, last, i, j - 1);
      RunStepGains(run, n, workers, last, j);
    }
  }

  /** Once the stop flag is up, a run goes on for a number of steps that depends on the nodes and
      threads only, and not on the rounds before; the coordinator starts no further round, and when
      the run cannot go on any more, every manager has returned and every thread has exited. */
  lemma {:induction false} StoppedRunsEnd(run: seq<State>, n: nat, workers: nat, i: nat)
    requires IsRun(run, n, workers) && i < |run| && run[i].stopFlag
    ensures |run| - i <= n * (41 * n + 21 * workers + 147) + 1
    ensures var end := run[|run| - 1];
            Sized(run[i]) && Sized(end) && Closing(end, LastRound(run[i])) && (Stuck(end) ==> AllDone(end))
  {
    hide IsRun, Inv, Closing, Gain, Stuck, AllDone, LastRound;
    var j := |run| - 1;
    RunKeepsInv(run, n, workers, i);
    RunKeepsInv(run, n, workers, j);
    SizedByInv(run[i], workers);
    var last := LastRound(run[i]);
    ClosingStarts(run[i], workers);
    RunGains(run, n, workers, last, i, j);
    GainLower(run[i], workers, last);
    GainUpper(run[j], workers, last);
    BoundAddsUp(n, workers);
    RunsNeverDeadlock(run, n, workers);
  }
}
