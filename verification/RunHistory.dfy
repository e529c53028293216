/**
  What a run can live through: how records evolve, how `execute` ends, and how
  many attempts and state changes a run can see.
 */
module RunHistory {
  import opened Wrappers
  import opened RunDomain
  import opened RunStore
  import opened RunProtocol
  import opened RunSafety

  // --------------------------------------------------- records only move forward

  predicate RunEvolves(x: RunRecord, y: RunRecord) {
    x == y || (RunMay(x.state, y.state) && y.version == x.version + 1 && y.engine == x.engine)
  }

  predicate AttemptEvolves(x: AttemptRecord, y: AttemptRecord) {
    && y.id == x.id && y.runId == x.runId
    && (x == y || (!AttemptTerminal(x.state) && (y.state == x.state || AttemptMay(x.state, y.state))))
  }

  predicate Evolves(s: Store, t: Store) {
    && (forall r | r in s.runs :: r in t.runs && RunEvolves(s.runs[r], t.runs[r]))
    && (forall a | a in s.attempts :: a in t.attempts && AttemptEvolves(s.attempts[a], t.attempts[a]))
  }

  lemma WritesEvolve(s: Store, task: Task)
    ensures Evolves(s, s)
    ensures forall t :: MoveRun(s, task.runId, t).Ok? ==> Evolves(s, MoveRun(s, task.runId, t).value)
    ensures forall t :: MoveAttempt(s, task.attemptId, t).Ok? ==> Evolves(s, MoveAttempt(s, task.attemptId, t).value)
  {
  }

  lemma ClaimEvolves(s: Store, m: Manager, now: int)
    ensures var r := BeginAttempt(s, m.task.runId, m.task.attemptId, m.runner, m.leaseSeconds, now);
            r.Ok? ==> Evolves(s, r.value)
  {
  }

  lemma CompleteEvolves(s: Store, task: Task, o: ResultOutcome)
    ensures var r := CompleteAttempt(s, task.attemptId, Finished(o), ResultEnvelope(task.runId, task.attemptId, o));
            r.Ok? ==> Evolves(s, r.value)
  {
  }

  lemma StepEvolves(s: Store, m: Manager, c: Choice)
    ensures Evolves(s, ManagerStep(s, m, c).0)
  {
    hide MoveRun, MoveAttempt, CompleteAttempt, BeginAttempt, DecideRetry, Evolves;
    WritesEvolve(s, m.task);
    ClaimEvolves(s, m, c.now);
    if m.pc.Complete? {
      CompleteEvolves(s, m.task, m.pc.o);
    }
  }

  /** One action moves every record by at most one legal transition. */
  lemma ApplyEvolves(limits: Limits, sys: System, a: Action)
    ensures Evolves(sys.store, Apply(limits, sys, a).store)
  {
    if a.Step? && a.id in sys.managers {
      StepEvolves(sys.store, sys.managers[a.id], a.choice);
    }
    hide ManagerStep;
  }

  /** Terminal attempts and terminal runs never change again, whatever happens. */
  lemma {:induction false} TerminalIsForever(limits: Limits, sys: System, actions: seq<Action>)
    ensures forall a | a in sys.store.attempts && AttemptTerminal(sys.store.attempts[a].state) ::
              && a in Run(limits, sys, actions).store.attempts
              && Run(limits, sys, actions).store.attempts[a] == sys.store.attempts[a]
    ensures forall r | r in sys.store.runs && RunTerminal(sys.store.runs[r].state) ::
              r in Run(limits, sys, actions).store.runs && Run(limits, sys, actions).store.runs[r] == sys.store.runs[r]
    decreases |actions|
  {
    hide Apply;
    if actions != [] {
      ApplyEvolves(limits, sys, actions[0]);
      TerminalIsForever(limits, Apply(limits, sys, actions[0]), actions[1..]);
    }
  }

  predicate NeverSucceedsFrom(s: RunState) {
    s == Cancelling || (s.Ended? && s.outcome != SUCCEEDED)
  }

  /** Once a cancellation is accepted the run can neither succeed nor be retried. */
  lemma {:induction false} CancellationSticks(limits: Limits, sys: System, actions: seq<Action>, run: RunId)
    requires run in sys.store.runs && NeverSucceedsFrom(sys.store.runs[run].state)
    ensures run in Run(limits, sys, actions).store.runs
    ensures NeverSucceedsFrom(Run(limits, sys, actions).store.runs[run].state)
    decreases |actions|
  {
    hide Apply;
    if actions != [] {
      ApplyEvolves(limits, sys, actions[0]);
      CancellationSticks(limits, Apply(limits, sys, actions[0]), actions[1..], run);
    }
  }

  // ------------------------------------------------------- how execute ends

  predicate AttemptIs(s: Store, task: Task, state: AttemptState) {
    task.attemptId in s.attempts && s.attempts[task.attemptId].runId == task.runId
    && s.attempts[task.attemptId].state == state
  }

  predicate Retryable(task: Task, o: ResultOutcome) {
    o in task.policy.retryOn && MayRepeat(task)
  }

  /** What the program counter of a manager says about its attempt and its last run write. */
  predicate EndOk(s: Store, m: Manager) {
    && (Live(m.pc) && !m.pc.WriteFinal? ==> m.wrote == Some(Running))
    && PcOk(s, m)
  }

  predicate PcOk(s: Store, m: Manager) {
    match m.pc
    case GiveUp(o) => Retryable(m.task, o)
    case WriteRetry(o) => Retryable(m.task, o)
    case Schedule(o) =>
      && Retryable(m.task, o) && AttemptIs(s, m.task, Finished(o))
      && m.wrote == Some(RetryWait) && HasStarted(s, m.task.runId)
    case ScheduleFailed(o) =>
      && Retryable(m.task, o) && AttemptIs(s, m.task, Finished(o))
      && m.wrote == Some(RetryWait) && HasStarted(s, m.task.runId)
    case WriteFinal(o) => (o == CANCELLED ==> HasStopped(s, m.task.runId))
    case Returned(LeaseLost) => AttemptIs(s, m.task, Lost) && HasEnded(s, m.task.runId) && m.wrote == Some(Running)
    case Returned(RetryScheduled(o)) =>
      Retryable(m.task, o) && AttemptIs(s, m.task, Finished(o)) && m.wrote == Some(RetryWait)
    case Returned(RetryAbandoned(o)) =>
      Retryable(m.task, o) && AttemptIs(s, m.task, Finished(o)) && m.wrote == Some(RunState.Ended(INFRA_ERROR))
    case Returned(Recorded(o)) => AttemptIs(s, m.task, Finished(o)) && m.wrote == Some(RunState.Ended(o))
    case Escaped => AttemptOver(s, m.task) && HasStopped(s, m.task.runId)
    case _ => true
  }

  predicate AttemptOver(s: Store, task: Task) {
    && task.attemptId in s.attempts && s.attempts[task.attemptId].runId == task.runId
    && AttemptTerminal(s.attempts[task.attemptId].state)
  }

  predicate HasStarted(s: Store, run: RunId) {
    run in s.runs && s.runs[run].state != Created
  }

  predicate HasEnded(s: Store, run: RunId) {
    run in s.runs && s.runs[run].state.Ended?
  }

  predicate HasStopped(s: Store, run: RunId) {
    run in s.runs && (s.runs[run].state == Cancelling || s.runs[run].state.Ended?)
  }

  ghost predicate Outcomes(sys: System) {
    && (forall m | m in sys.managers :: EndOk(sys.store, sys.managers[m]))
    && (forall a | a in sys.store.attempts && sys.store.attempts[a].state == Lost ::
          HasEnded(sys.store, sys.store.attempts[a].runId))
  }

  lemma EndOkStable(s: Store, t: Store, m: Manager)
    requires Evolves(s, t) && EndOk(s, m)
    ensures EndOk(t, m)
  {
  }

  predicate NoNewLoss(s: Store, t: Store) {
    forall a | a in t.attempts && t.attempts[a].state == Lost ::
             a in s.attempts && s.attempts[a].state == Lost && s.attempts[a].runId == t.attempts[a].runId
  }

  lemma LossStable(s: Store, t: Store)
    requires Evolves(s, t) && NoNewLoss(s, t)
    requires forall a | a in s.attempts && s.attempts[a].state == Lost :: HasEnded(s, s.attempts[a].runId)
    ensures forall a | a in t.attempts && t.attempts[a].state == Lost :: HasEnded(t, t.attempts[a].runId)
  {
  }

  lemma WritesLoseNothing(s: Store, m: Manager, now: int)
    ensures NoNewLoss(s, s)
    ensures forall t :: MoveRun(s, m.task.runId, t).Ok? ==> NoNewLoss(s, MoveRun(s, m.task.runId, t).value)
    ensures forall t :: t != Lost && MoveAttempt(s, m.task.attemptId, t).Ok? ==>
              NoNewLoss(s, MoveAttempt(s, m.task.attemptId, t).value)
    ensures var r := BeginAttempt(s, m.task.runId, m.task.attemptId, m.runner, m.leaseSeconds, now);
            r.Ok? ==> NoNewLoss(s, r.value)
    ensures forall o ::
              var r := CompleteAttempt(s, m.task.attemptId, Finished(o),
                                       ResultEnvelope(m.task.runId, m.task.attemptId, o));
              r.Ok? ==> NoNewLoss(s, r.value)
  {
  }

  lemma StepLosesNothing(s: Store, m: Manager, c: Choice)
    ensures NoNewLoss(s, ManagerStep(s, m, c).0)
  {
    hide MoveRun, MoveAttempt, CompleteAttempt, BeginAttempt, DecideRetry, NoNewLoss;
    WritesLoseNothing(s, m, c.now);
  }

  lemma SweepEndsLosers(s: Store, cutoff: int)
    requires Sweepable(s, cutoff)
    requires forall a | a in s.attempts && s.attempts[a].state == Lost :: HasEnded(s, s.attempts[a].runId)
    ensures forall a | a in ExpireLeases(s, cutoff).attempts && ExpireLeases(s, cutoff).attempts[a].state == Lost ::
              HasEnded(ExpireLeases(s, cutoff), ExpireLeases(s, cutoff).attempts[a].runId)
  {
    forall a | a in s.attempts && Expired(s.attempts[a], cutoff)
      ensures HasExpired(s, s.attempts[a].runId, cutoff)
    {
    }
  }

  lemma MoveRunResult(s: Store, run: RunId, target: RunState)
    ensures var r := MoveRun(s, run, target);
            r.Ok? ==> r.value.attempts == s.attempts && run in r.value.runs && r.value.runs[run].state == target
  {
  }

  lemma CompleteResult(s: Store, task: Task, o: ResultOutcome)
    ensures var r := CompleteAttempt(s, task.attemptId, Finished(o), ResultEnvelope(task.runId, task.attemptId, o));
            r.Ok? ==> AttemptIs(r.value, task, Finished(o))
  {
  }

  lemma RetryMeansRetryable(task: Task, o: ResultOutcome, n: nat)
    ensures DecideRetry(task, o, n).Retry? ==> Retryable(task, o) && n < task.policy.maxAttempts
  {
  }

  /** The program counters from which only the run is looked at or written. */
  predicate SettlesRun(pc: Pc) {
    || pc.GiveUp? || pc.WriteRetry? || pc.Schedule? || pc.ScheduleFailed?
    || pc.ReadCancelling? || pc.EnterCancelling? || pc.WriteFinal?
  }

  predicate InTouch(s: Store, m: Manager) {
    Live(m.pc) ==> (&& m.task.attemptId in s.attempts && s.attempts[m.task.attemptId].runId == m.task.runId
                    && m.task.runId in s.runs && Claimable(s.runs[m.task.runId].state)
                    && Tracks(m.pc, s.attempts[m.task.attemptId].state))
  }

  /** A run write is refused only once the run is being cancelled or has ended. */
  lemma RefusedMeansStopped(s: Store, run: RunId, target: RunState)
    requires run in s.runs && MoveRun(s, run, target).Err?
    requires (Claimable(s.runs[run].state) && (target == RetryWait || target == Cancelling))
             || (s.runs[run].state != Created && target == RunState.Ended(INFRA_ERROR))
             || (Claimable(s.runs[run].state) && target.Ended? && target != RunState.Ended(CANCELLED))
    ensures HasStopped(s, run)
  {
    if target.Ended? {
      match target.outcome {
        case SUCCEEDED =>
        case FAILED =>
        case CANCELLED =>
        case TIMED_OUT =>
        case INFRA_ERROR =>
      }
    }
  }

  lemma RunStepEnds(s: Store, m: Manager, c: Choice)
    requires EndOk(s, m) && InTouch(s, m) && SettlesRun(m.pc)
    ensures EndOk(ManagerStep(s, m, c).0, ManagerStep(s, m, c).1)
  {
    hide MoveRun, Retryable;
    MoveRunResult(s, m.task.runId, RetryWait);
    MoveRunResult(s, m.task.runId, Cancelling);
    MoveRunResult(s, m.task.runId, RunState.Ended(INFRA_ERROR));
    if m.pc.WriteFinal? {
      MoveRunResult(s, m.task.runId, RunState.Ended(m.pc.o));
    }
    if ManagerStep(s, m, c).1.pc.Escaped? {
      EscapedHasStopped(s, m, c);
    }
  }

  lemma EscapedHasStopped(s: Store, m: Manager, c: Choice)
    requires EndOk(s, m) && InTouch(s, m) && SettlesRun(m.pc) && ManagerStep(s, m, c).1.pc.Escaped?
    ensures ManagerStep(s, m, c) == (s, m.(pc := Escaped)) && AttemptOver(s, m.task) && HasStopped(s, m.task.runId)
  {
    hide MoveRun, Retryable;
    var target := if m.pc.WriteRetry? then RetryWait
                  else if m.pc.EnterCancelling? then Cancelling
                  else if m.pc.WriteFinal? then RunState.Ended(m.pc.o)
                  else RunState.Ended(INFRA_ERROR);
    if target != RunState.Ended(CANCELLED) && MoveRun(s, m.task.runId, target).Err? {
      RefusedMeansStopped(s, m.task.runId, target);
    }
  }

  lemma AttemptStepEnds(s: Store, m: Manager, c: Choice)
    requires EndOk(s, m) && InTouch(s, m) && !SettlesRun(m.pc)
    requires m.task.attemptId in s.attempts && s.attempts[m.task.attemptId].state == Lost ==>
               HasEnded(s, s.attempts[m.task.attemptId].runId)
    ensures EndOk(ManagerStep(s, m, c).0, ManagerStep(s, m, c).1)
  {
    hide MoveAttempt, CompleteAttempt, BeginAttempt, DecideRetry, Retryable;
    if m.pc.Decide? {
      RetryMeansRetryable(m.task, m.pc.o, |AttemptsOf(s, m.task.runId)|);
    }
    if m.pc.Complete? {
      CompleteResult(s, m.task, m.pc.o);
    }
    if m.pc.Prepare? || m.pc.Launch? {
      LaunchRefused(s, m);
    }
  }

  /** An attempt that cannot be launched has been lost. */
  lemma LaunchRefused(s: Store, m: Manager)
    requires InTouch(s, m) && (m.pc.Prepare? || m.pc.Launch?)
    ensures MoveAttempt(s, m.task.attemptId, if m.pc.Prepare? then Preparing else Executing).Err? ==>
              AttemptIs(s, m.task, Lost)
  {
  }

  lemma ApplyKeepsOutcomes(limits: Limits, sys: System, a: Action)
    requires Inv(sys) && Outcomes(sys)
    ensures Outcomes(Apply(limits, sys, a))
  {
    var sys' := Apply(limits, sys, a);
    ApplyEvolves(limits, sys, a);
    ApplyLosesOnlyBySweep(limits, sys, a);
    forall m | m in sys'.managers
      ensures EndOk(sys'.store, sys'.managers[m])
    {
      if m in sys.managers {
        EndOkStable(sys.store, sys'.store, sys.managers[m]);
        if a.Step? && a.id == m {
          StepEndsIn(sys, m, a.choice);
        }
      }
      hide Inv, ManagerStep, Evolves, PcOk;
    }
  }

  lemma StepEndsIn(sys: System, m: ManagerId, c: Choice)
    requires Inv(sys) && Outcomes(sys) && m in sys.managers
    ensures EndOk(ManagerStep(sys.store, sys.managers[m], c).0, ManagerStep(sys.store, sys.managers[m], c).1)
  {
    hide ManagerStep, EndOk, Tracks;
    assert ManagerOk(sys, m);
    if SettlesRun(sys.managers[m].pc) {
      RunStepEnds(sys.store, sys.managers[m], c);
    } else {
      AttemptStepEnds(sys.store, sys.managers[m], c);
    }
  }

  lemma ApplyLosesOnlyBySweep(limits: Limits, sys: System, a: Action)
    requires Outcomes(sys)
    ensures var t := Apply(limits, sys, a).store;
            forall x | x in t.attempts && t.attempts[x].state == Lost :: HasEnded(t, t.attempts[x].runId)
  {
    hide EndOk;
    var t := Apply(limits, sys, a).store;
    ApplyEvolves(limits, sys, a);
    if a.Sweep? {
      if Sweepable(sys.store, a.cutoff) {
        SweepEndsLosers(sys.store, a.cutoff);
      }
    } else {
      OnlySweepLoses(limits, sys, a);
      LossStable(sys.store, t);
    }
  }

  lemma OnlySweepLoses(limits: Limits, sys: System, a: Action)
    requires !a.Sweep?
    ensures NoNewLoss(sys.store, Apply(limits, sys, a).store)
  {
    if a.Step? && a.id in sys.managers {
      StepLosesNothing(sys.store, sys.managers[a.id], a.choice);
    }
    hide ManagerStep;
  }

  lemma {:induction false} RunKeepsOutcomes(limits: Limits, sys: System, actions: seq<Action>)
    requires Inv(sys) && Outcomes(sys)
    ensures Inv(Run(limits, sys, actions)) && Outcomes(Run(limits, sys, actions))
    decreases |actions|
  {
    hide Inv, Outcomes, Apply;
    if actions != [] {
      ApplyKeepsInv(limits, sys, actions[0]);
      ApplyKeepsOutcomes(limits, sys, actions[0]);
      RunKeepsOutcomes(limits, Apply(limits, sys, actions[0]), actions[1..]);
    }
  }

  // ------------------------------------------------------------ escape routes

  /** When a manager's next call lets an InvalidTransition out of `execute`. */
  predicate EscapesNow(s: Store, m: Manager)
    requires m.task.runId in s.runs && m.task.attemptId in s.attempts
  {
    var run, attempt := s.runs[m.task.runId].state, s.attempts[m.task.attemptId].state;
    match m.pc
    case Prepare => attempt == Lost
    case Launch => attempt == Lost
    case GiveUp(_) => run.Ended?
    case WriteRetry(_) => run.Ended? || run == Cancelling
    case ScheduleFailed(_) => run.Ended?
    case EnterCancelling => run.Ended? || run == Cancelling
    case WriteFinal(o) => run.Ended? || (run == Cancelling && o == SUCCEEDED)
    case _ => false
  }

  /**
    The exact third outcome of `execute`: an InvalidTransition escapes if and only
    if the attempt was reaped before launch, or the run was cancelled or ended
    between the manager's last look at it and its own run write. The escaping
    step changes no record and leaves a terminal attempt behind.
   */
  lemma EscapesExactly(sys: System, id: ManagerId, c: Choice)
    requires Inv(sys) && Outcomes(sys) && id in sys.managers
    requires Live(sys.managers[id].pc) || sys.managers[id].pc.ScheduleFailed?
    ensures var m := sys.managers[id];
            && m.task.runId in sys.store.runs && m.task.attemptId in sys.store.attempts
            && (ManagerStep(sys.store, m, c).1.pc == Escaped <==> EscapesNow(sys.store, m))
            && (EscapesNow(sys.store, m) ==>
                  && ManagerStep(sys.store, m, c).0 == sys.store
                  && AttemptTerminal(sys.store.attempts[m.task.attemptId].state))
  {
    hide OneLive, DecideRetry;
    assert ManagerOk(sys, id);
    assert EndOk(sys.store, sys.managers[id]);
    var m := sys.managers[id];
    assert AttemptOk(sys.store, m.task.attemptId);
    if m.pc.Collect? || m.pc.Complete? {
      RefusedMeansLost(sys.store, m.pc, m.task);
    }
  }
}
