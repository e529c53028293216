/**
  The window between a manager's check for cancellation and its final write:
  a run that `execute` leaves behind in CANCELLING, and what it takes to move it.
 */
module RunStranding {
  import opened Wrappers
  import opened RunDomain
  import opened RunStore
  import opened RunProtocol
  import opened RunSafety
  import opened RunHistory

  lemma {:induction false} RunAppend(limits: Limits, sys: System, actions: seq<Action>, a: Action)
    ensures Run(limits, sys, actions + [a]) == Apply(limits, Run(limits, sys, actions), a)
    decreases |actions|
  {
    hide Apply;
    if actions == [] {
      assert (actions + [a])[1..] == [];
    } else {
      assert (actions + [a])[1..] == actions[1..] + [a];
      RunAppend(limits, Apply(limits, sys, actions[0]), actions[1..], a);
    }
  }

  /** Appends one step of manager 0 to a run of the system. */
  lemma ManagerMoves(limits: Limits, actions: seq<Action>, before: System, c: Choice)
    returns (longer: seq<Action>, after: System)
    requires Run(limits, Initial, actions) == before && 0 in before.managers
    ensures longer == actions + [Step(0, c)] && Run(limits, Initial, longer) == after
    ensures after == before.(store := ManagerStep(before.store, before.managers[0], c).0,
                             managers := before.managers[0 := ManagerStep(before.store, before.managers[0], c).1])
  {
    hide ManagerStep;
    RunAppend(limits, Initial, actions, Step(0, c));
    longer := actions + [Step(0, c)];
    after := Apply(limits, before, Step(0, c));
  }

  /** A dispatched run with one manager about to look at it. */
  lemma DispatchRun(limits: Limits, task: Task, scheduler: bool) returns (actions: seq<Action>, sys: System)
    requires ValidPolicy(task.policy) && task.policy.maxAttempts == limits(task.runId)
    ensures Run(limits, Initial, actions) == sys
    ensures sys == System(Store(map[task.runId := RunRecord(task.engine, Dispatching, 2)], map[]),
                          map[0 := Manager(task, "local", 300, scheduler, ReadRun, None)], false)
  {
    var run := task.runId;
    actions := [];
    assert Run(limits, Initial, []) == Initial;
    RunAppend(limits, Initial, [], CreateRunAction(run, task.engine));
    RunAppend(limits, Initial, [CreateRunAction(run, task.engine)], Queue(run));
    actions := [CreateRunAction(run, task.engine)] + [Queue(run)];
    assert Run(limits, Initial, actions) == System(Store(map[run := RunRecord(task.engine, Queued, 1)], map[]), map[],
                                                   false);
    RunAppend(limits, Initial, actions, Dispatch(run));
    actions := actions + [Dispatch(run)];
    assert Run(limits, Initial, actions) == System(Store(map[run := RunRecord(task.engine, Dispatching, 2)], map[]),
                                                   map[], false);
    RunAppend(limits, Initial, actions, Spawn(0, task, "local", 300, scheduler));
    actions := actions + [Spawn(0, task, "local", 300, scheduler)];
    sys := Run(limits, Initial, actions);
  }

  /** The store while the one attempt of the one run is in the given states. */
  function OneRun(task: Task, run: RunState, runVersion: nat, attempt: AttemptState, attemptVersion: nat,
                  outcome: Option<ResultOutcome>): Store
  {
    Store(map[task.runId := RunRecord(task.engine, run, runVersion)],
          map[task.attemptId := AttemptRecord(task.attemptId, task.runId, attempt, attemptVersion, outcome, "local",
                                              Some(300))])
  }

  function OneManager(task: Task, scheduler: bool, pc: Pc): map<ManagerId, Manager> {
    map[0 := Manager(task, "local", 300, scheduler, pc, Some(Running))]
  }

  /** The manager has claimed its attempt. */
  lemma ClaimAttempt(limits: Limits, task: Task, scheduler: bool) returns (actions: seq<Action>, sys: System)
    requires ValidPolicy(task.policy) && task.policy.maxAttempts == limits(task.runId)
    ensures Run(limits, Initial, actions) == sys
    ensures sys == System(OneRun(task, Running, 3, Claimed, 1, None), OneManager(task, scheduler, Prepare), false)
  {
    var c := Choice(0, SUCCEEDED, false);
    actions, sys := DispatchRun(limits, task, scheduler);
    actions, sys := ManagerMoves(limits, actions, sys, c);
    actions, sys := ManagerMoves(limits, actions, sys, c);
  }

  /** The manager has launched its attempt. */
  lemma LaunchAttempt(limits: Limits, task: Task, scheduler: bool) returns (actions: seq<Action>, sys: System)
    requires ValidPolicy(task.policy) && task.policy.maxAttempts == limits(task.runId)
    ensures Run(limits, Initial, actions) == sys
    ensures sys == System(OneRun(task, Running, 3, Executing, 3, None), OneManager(task, scheduler, Execute), false)
  {
    var c := Choice(0, SUCCEEDED, false);
    actions, sys := ClaimAttempt(limits, task, scheduler);
    actions, sys := ManagerMoves(limits, actions, sys, c);
    assert sys == System(OneRun(task, Running, 3, Preparing, 2, None), OneManager(task, scheduler, Launch), false);
    actions, sys := ManagerMoves(limits, actions, sys, c);
  }

  /** The manager has its result and has found neither a cancellation nor a lost lease. */
  lemma FinishUncancelled(limits: Limits, task: Task, scheduler: bool, o: ResultOutcome)
    returns (actions: seq<Action>, sys: System)
    requires ValidPolicy(task.policy) && task.policy.maxAttempts == limits(task.runId)
    ensures Run(limits, Initial, actions) == sys
    ensures sys == System(OneRun(task, Running, 3, Executing, 3, None), OneManager(task, scheduler, Collect(o)), false)
  {
    var c := Choice(0, o, false);
    actions, sys := LaunchAttempt(limits, task, scheduler);
    actions, sys := ManagerMoves(limits, actions, sys, c);
    actions, sys := ManagerMoves(limits, actions, sys, c);
    actions, sys := ManagerMoves(limits, actions, sys, c);
  }

  /** The cancellation arrives, and the manager collects its result all the same. */
  lemma CollectCancelled(limits: Limits, task: Task, scheduler: bool, o: ResultOutcome)
    returns (actions: seq<Action>, sys: System)
    requires ValidPolicy(task.policy) && task.policy.maxAttempts == limits(task.runId)
    ensures Run(limits, Initial, actions) == sys
    ensures sys == System(OneRun(task, Cancelling, 4, Collecting, 4, None), OneManager(task, scheduler, Complete(o)),
                          false)
  {
    actions, sys := FinishUncancelled(limits, task, scheduler, o);
    RunAppend(limits, Initial, actions, Cancel(task.runId));
    actions := actions + [Cancel(task.runId)];
    sys := Run(limits, Initial, actions);
    actions, sys := ManagerMoves(limits, actions, sys, Choice(0, o, false));
  }

  lemma CompleteCancelled(limits: Limits, task: Task, scheduler: bool, o: ResultOutcome)
    returns (actions: seq<Action>, sys: System)
    requires ValidPolicy(task.policy) && task.policy.maxAttempts == limits(task.runId)
    ensures Run(limits, Initial, actions) == sys
    ensures sys == System(OneRun(task, Cancelling, 4, Finished(o), 5, Some(o)), OneManager(task, scheduler, Decide(o)),
                          false)
  {
    actions, sys := CollectCancelled(limits, task, scheduler, o);
    actions, sys := ManagerMoves(limits, actions, sys, Choice(0, o, false));
  }

  /** The manager has left `execute` with an error, its attempt is over with outcome `o`, and the run is stranded. */
  ghost predicate LeftStranded(sys: System, task: Task, o: ResultOutcome) {
    && 0 in sys.managers && sys.managers[0].pc == Escaped
    && task.attemptId in sys.store.attempts && sys.store.attempts[task.attemptId].state == Finished(o)
    && Stranded(sys, task.runId)
  }

  /** The refused write of the only manager leaves the run stranded. */
  lemma RefusedWriteStrands(limits: Limits, task: Task, scheduler: bool, o: ResultOutcome, pc: Pc,
                            actions: seq<Action>, before: System) returns (longer: seq<Action>)
    requires Run(limits, Initial, actions) == before
    requires before == System(OneRun(task, Cancelling, 4, Finished(o), 5, Some(o)), OneManager(task, scheduler, pc),
                              false)
    requires pc == WriteFinal(SUCCEEDED) || pc.WriteRetry?
    ensures LeftStranded(Run(limits, Initial, longer), task, o)
  {
    hide ManagerStep, LeftStranded;
    var sys;
    longer, sys := ManagerMoves(limits, actions, before, Choice(0, o, false));
    WriteIsRefused(task, scheduler, o, pc);
    assert sys.managers == OneManager(task, scheduler, Escaped);
    OverIsStranded(task, scheduler, o);
  }

  lemma WriteIsRefused(task: Task, scheduler: bool, o: ResultOutcome, pc: Pc)
    requires pc == WriteFinal(SUCCEEDED) || pc.WriteRetry?
    ensures var m := OneManager(task, scheduler, pc)[0];
            var s := OneRun(task, Cancelling, 4, Finished(o), 5, Some(o));
            ManagerStep(s, m, Choice(0, o, false)) == (s, m.(pc := Escaped))
  {
  }

  lemma OverIsStranded(task: Task, scheduler: bool, o: ResultOutcome)
    ensures LeftStranded(System(OneRun(task, Cancelling, 4, Finished(o), 5, Some(o)),
                                OneManager(task, scheduler, Escaped), false), task, o)
  {
  }

  /**
    A cancellation that lands after the manager's check: the attempt ends
    SUCCEEDED, the final write is refused, and the run is left CANCELLING.
   */
  lemma LateCancelStrands(limits: Limits, task: Task, scheduler: bool) returns (actions: seq<Action>)
    requires ValidPolicy(task.policy) && task.policy.maxAttempts == limits(task.runId)
    ensures LeftStranded(Run(limits, Initial, actions), task, SUCCEEDED)
  {
    var sys;
    actions, sys := CompleteCancelled(limits, task, scheduler, SUCCEEDED);
    actions, sys := ManagerMoves(limits, actions, sys, Choice(0, SUCCEEDED, false));
    actions := RefusedWriteStrands(limits, task, scheduler, SUCCEEDED, WriteFinal(SUCCEEDED), actions, sys);
  }

  /**
    A retryable result while the run is being cancelled: the retry cannot be
    scheduled, the error escapes, and the run is left CANCELLING.
   */
  lemma RetryWhileCancellingStrands(limits: Limits, task: Task, o: ResultOutcome) returns (actions: seq<Action>)
    requires ValidPolicy(task.policy) && task.policy.maxAttempts == limits(task.runId)
    requires o in task.policy.retryOn && MayRepeat(task) && task.policy.maxAttempts >= 2
    ensures LeftStranded(Run(limits, Initial, actions), task, o)
  {
    hide MayRepeat;
    var sys;
    actions, sys := CompleteCancelled(limits, task, true, o);
    assert AttemptsOf(sys.store, task.runId) == {task.attemptId};
    actions, sys := ManagerMoves(limits, actions, sys, Choice(0, o, false));
    actions := RefusedWriteStrands(limits, task, true, o, WriteRetry(o), actions, sys);
  }

  /** Nobody is left who would still write the run. */
  predicate WillWrite(pc: Pc) {
    Live(pc) || pc.Schedule? || pc.ScheduleFailed?
  }

  ghost predicate Stranded(sys: System, run: RunId) {
    && run in sys.store.runs && sys.store.runs[run].state == Cancelling
    && (forall a :: !LeasedOn(sys.store, a, run))
    && (forall m | m in sys.managers && sys.managers[m].task.runId == run :: !WillWrite(sys.managers[m].pc))
  }

  lemma OthersLeaveItAlone(s: Store, m: Manager, c: Choice, run: RunId)
    requires run in s.runs && s.runs[run].state == Cancelling && (forall a :: !LeasedOn(s, a, run))
    requires m.task.runId == run ==> !WillWrite(m.pc)
    requires m.task.attemptId in s.attempts && Live(m.pc) ==> s.attempts[m.task.attemptId].runId == m.task.runId
    ensures var (t, n) := ManagerStep(s, m, c);
            && n.task == m.task && run in t.runs && t.runs[run] == s.runs[run] && (forall a :: !LeasedOn(t, a, run))
            && (m.task.runId == run ==> !WillWrite(n.pc))
  {
    var t := ManagerStep(s, m, c).0;
    forall a | LeasedOn(t, a, run)
      ensures LeasedOn(s, a, run)
    {
    }
  }

  lemma SweepLeavesItAlone(s: Store, cutoff: int, run: RunId)
    requires run in s.runs && (forall a :: !LeasedOn(s, a, run))
    ensures var t := ExpireLeases(s, cutoff);
            run in t.runs && t.runs[run] == s.runs[run] && forall a :: !LeasedOn(t, a, run)
  {
    assert forall x | x in s.attempts && s.attempts[x].runId == run :: !LeasedOn(s, x, run);
    assert !HasExpired(s, run, cutoff);
  }

  lemma EnvironmentLeavesItAlone(limits: Limits, sys: System, a: Action, run: RunId)
    requires Stranded(sys, run) && a != Converge(run) && !a.Step?
    ensures Stranded(Apply(limits, sys, a), run)
  {
    hide ManagerStep, ExpireLeases, Sweepable;
    var sys' := Apply(limits, sys, a);
    if a.Sweep? {
      SweepLeavesItAlone(sys.store, a.cutoff, run);
    }
    forall x | LeasedOn(sys'.store, x, run)
      ensures LeasedOn(sys.store, x, run)
    {
    }
  }

  lemma StrandedStep(limits: Limits, sys: System, a: Action, run: RunId)
    requires Inv(sys) && Stranded(sys, run) && a != Converge(run)
    ensures Stranded(Apply(limits, sys, a), run)
  {
    hide OneLive, ManagerStep;
    if !a.Step? {
      EnvironmentLeavesItAlone(limits, sys, a, run);
    } else if a.id in sys.managers {
      assert ManagerOk(sys, a.id);
      OthersLeaveItAlone(sys.store, sys.managers[a.id], a.choice, run);
    }
  }

  /**
    Heartbeats, sweeps, further cancels, retries and other managers never move a
    stranded run. It stays as it is if and only if no convergence comes; the
    first convergence ends it with INFRA_ERROR for good.
   */
  lemma {:induction false} StrandedUntilConverged(limits: Limits, sys: System, actions: seq<Action>, run: RunId)
    requires Inv(sys) && Stranded(sys, run)
    ensures var s := Run(limits, sys, actions);
            if Converge(run) in actions then run in s.store.runs && s.store.runs[run].state == Ended(INFRA_ERROR)
            else Stranded(s, run)
    decreases |actions|
  {
    hide Inv, Stranded, Apply;
    if actions != [] {
      var sys' := Apply(limits, sys, actions[0]);
      if actions[0] == Converge(run) {
        ConvergenceEnds(limits, sys, run);
        TerminalIsForever(limits, sys', actions[1..]);
      } else {
        StrandedStep(limits, sys, actions[0], run);
        ApplyKeepsInv(limits, sys, actions[0]);
        StrandedUntilConverged(limits, sys', actions[1..], run);
      }
    }
  }

  lemma ConvergenceEnds(limits: Limits, sys: System, run: RunId)
    requires Stranded(sys, run)
    ensures var t := Apply(limits, sys, Converge(run)).store; run in t.runs && t.runs[run].state == Ended(INFRA_ERROR)
  {
  }
}
