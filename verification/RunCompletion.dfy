/** What becomes of a result nobody interferes with: it is recorded, retried, or given up for want of a scheduler. */
module RunCompletion {
  import opened Wrappers
  import opened RunDomain
  import opened RunStore
  import opened RunProtocol
  import opened RunSafety
  import opened RunHistory
  import opened RunStranding
  import opened RunCancellation

  datatype Fate = Recording | Retrying | GivingUp

  /** The outcome is one the policy retries, the requests may be repeated, and attempts are left. */
  predicate IsRetried(task: Task, o: ResultOutcome, attempts: nat) {
    && o in task.policy.retryOn && attempts < task.policy.maxAttempts
    && (task.engine == HTTP && !task.policy.allowNonIdempotentHttp ==>
          forall m | m in task.methods :: m in {"GET", "HEAD", "OPTIONS", "TRACE", "PUT", "DELETE"})
  }

  function FateOf(m: Manager, o: ResultOutcome, attempts: nat): Fate {
    if !IsRetried(m.task, o, attempts) then Recording else if m.hasScheduler then Retrying else GivingUp
  }

  lemma RetriesExactly(task: Task, o: ResultOutcome, attempts: nat)
    ensures DecideRetry(task, o, attempts).Retry? <==> IsRetried(task, o, attempts)
  {
  }

  /** How many calls a manager with result `o` has left before its decisive run write. */
  function CallsLeft(o: ResultOutcome, fate: Fate, pc: Pc): Option<nat> {
    match pc
    case ReadCancel(x) => if x == o then Some(8) else None
    case ReadLost(x) => if x == o then Some(7) else None
    case Collect(x) => if x == o then Some(6) else None
    case Complete(x) => if x == o then Some(5) else None
    case Decide(x) => if x == o then Some(4) else None
    case ReadCancelling => if o == CANCELLED && fate == Recording then Some(3) else None
    case EnterCancelling => if o == CANCELLED && fate == Recording then Some(2) else None
    case WriteFinal(x) => if x == o && fate == Recording then Some(1) else None
    case GiveUp(x) => if x == o && fate == GivingUp then Some(1) else None
    case WriteRetry(x) => if x == o && fate == Retrying then Some(1) else None
    case _ => None
  }

  /** The run's state while its manager is at work: RUNNING, until a CANCELLED result makes it CANCELLING. */
  function StateAt(o: ResultOutcome, left: nat): RunState {
    if o == CANCELLED && left == 1 then Cancelling else Running
  }

  /** The manager is at work on its result, its run is untouched, and no attempt was added. */
  ghost predicate AtWork(sys: System, id: ManagerId, m0: Manager, o: ResultOutcome, attempts: nat, left: nat) {
    && id in sys.managers && sys.managers[id].task == m0.task && sys.managers[id].hasScheduler == m0.hasScheduler
    && left > 0 && CallsLeft(o, FateOf(m0, o, attempts), sys.managers[id].pc) == Some(left)
    && RunIs(sys.store, m0.task, StateAt(o, left))
    && |AttemptsOf(sys.store, m0.task.runId)| == attempts
  }

  /** The fate has been met. */
  ghost predicate Met(sys: System, id: ManagerId, m0: Manager, o: ResultOutcome, attempts: nat) {
    && id in sys.managers && AttemptIs(sys.store, m0.task, Finished(o))
    && match FateOf(m0, o, attempts)
       case Recording =>
         sys.managers[id].pc == Returned(Recorded(o)) && RunIs(sys.store, m0.task, RunState.Ended(o))
       case GivingUp =>
         sys.managers[id].pc == Returned(RetryAbandoned(o)) && RunIs(sys.store, m0.task, RunState.Ended(INFRA_ERROR))
       case Retrying => AsksForRetry(sys.managers[id], o)
  }

  /** The manager has sent its run to RETRY_WAIT and is scheduling the retry or has done so. */
  predicate AsksForRetry(m: Manager, o: ResultOutcome) {
    || (m.wrote == Some(RetryWait) && (m.pc == Schedule(o) || m.pc == ScheduleFailed(o)
                                       || m.pc == Returned(RetryScheduled(o)) || m.pc == Escaped))
    || m.pc == Returned(RetryAbandoned(o))
  }

  // ------------------------------------------------- the manager's own calls

  lemma OwnReads(sys: System, id: ManagerId, m0: Manager, o: ResultOutcome, attempts: nat, left: nat, c: Choice)
    requires Inv(sys) && AtWork(sys, id, m0, o, attempts, left) && !IsLost(sys.store, m0.task)
    requires left in {8, 7, 3}
    ensures var (t, n) := ManagerStep(sys.store, sys.managers[id], c);
            && t == sys.store && n.task == m0.task && n.hasScheduler == m0.hasScheduler
            && CallsLeft(o, FateOf(m0, o, attempts), n.pc) == Some(left - 1)
  {
    hide Inv, DecideRetry, FateOf, AttemptsOf;
    LiveFacts(sys, id);
  }

  lemma OwnDecides(sys: System, id: ManagerId, m0: Manager, o: ResultOutcome, attempts: nat, c: Choice)
    requires Inv(sys) && AtWork(sys, id, m0, o, attempts, 4) && ValidPolicy(m0.task.policy)
    ensures var (t, n) := ManagerStep(sys.store, sys.managers[id], c);
            && t == sys.store && n.task == m0.task && n.hasScheduler == m0.hasScheduler
            && var next := CallsLeft(o, FateOf(m0, o, attempts), n.pc);
               next.Some? && next.value == if o == CANCELLED then 3 else 1
  {
    hide Inv, DecideRetry, AttemptsOf, MayRepeat;
    LiveFacts(sys, id);
    RetriesExactly(m0.task, o, attempts);
  }

  lemma AttemptWrites(s: Store, task: Task, o: ResultOutcome)
    requires task.attemptId in s.attempts && s.attempts[task.attemptId].id == task.attemptId
    requires s.attempts[task.attemptId].runId == task.runId
    ensures s.attempts[task.attemptId].state == Executing ==> MoveAttempt(s, task.attemptId, Collecting).Ok?
    ensures var r := MoveAttempt(s, task.attemptId, Collecting);
            r.Ok? ==> r.value.runs == s.runs && AttemptsOf(r.value, task.runId) == AttemptsOf(s, task.runId)
    ensures var r := CompleteAttempt(s, task.attemptId, Finished(o), ResultEnvelope(task.runId, task.attemptId, o));
            && (s.attempts[task.attemptId].state == Collecting ==> r.Ok?)
            && (r.Ok? ==> r.value.runs == s.runs && AttemptsOf(r.value, task.runId) == AttemptsOf(s, task.runId))
  {
  }

  lemma OwnAttemptWrites(sys: System, id: ManagerId, m0: Manager, o: ResultOutcome, attempts: nat, left: nat,
                         c: Choice)
    requires Inv(sys) && AtWork(sys, id, m0, o, attempts, left) && !IsLost(sys.store, m0.task)
    requires left in {6, 5}
    ensures var (t, n) := ManagerStep(sys.store, sys.managers[id], c);
            && t.runs == sys.store.runs && n.task == m0.task && n.hasScheduler == m0.hasScheduler
            && AttemptsOf(t, m0.task.runId) == AttemptsOf(sys.store, m0.task.runId)
            && CallsLeft(o, FateOf(m0, o, attempts), n.pc) == Some(left - 1)
  {
    hide Inv, DecideRetry, FateOf, AttemptsOf, MoveRun, MoveAttempt, CompleteAttempt;
    LiveFacts(sys, id);
    AttemptWrites(sys.store, m0.task, o);
  }

  lemma OwnEnters(sys: System, id: ManagerId, m0: Manager, o: ResultOutcome, attempts: nat, c: Choice)
    requires Inv(sys) && AtWork(sys, id, m0, o, attempts, 2)
    ensures var (t, n) := ManagerStep(sys.store, sys.managers[id], c);
            && t.attempts == sys.store.attempts && n.task == m0.task && n.hasScheduler == m0.hasScheduler
            && RunIs(t, m0.task, Cancelling) && CallsLeft(o, FateOf(m0, o, attempts), n.pc) == Some(1)
  {
    hide Inv, DecideRetry, FateOf, AttemptsOf, MoveAttempt, CompleteAttempt;
    LiveFacts(sys, id);
  }

  lemma OwnFinal(sys: System, id: ManagerId, m0: Manager, o: ResultOutcome, attempts: nat, c: Choice)
    requires Inv(sys) && AtWork(sys, id, m0, o, attempts, 1) && ValidPolicy(m0.task.policy)
    ensures var (t, n) := ManagerStep(sys.store, sys.managers[id], c);
            Met(sys.(store := t, managers := sys.managers[id := n]), id, m0, o, attempts)
  {
    hide Inv, DecideRetry, MayRepeat, AttemptsOf, MoveAttempt, CompleteAttempt;
    LiveFacts(sys, id);
    WriteAccepted(sys.store, m0.task, o);
  }

  /** Neither a running run nor, for a cancelled result, a cancelling one refuses the decisive write. */
  lemma WriteAccepted(s: Store, task: Task, o: ResultOutcome)
    requires RunIs(s, task, if o == CANCELLED then Cancelling else Running)
    ensures MoveRun(s, task.runId, RunState.Ended(o)).Ok?
    ensures o != CANCELLED ==> MoveRun(s, task.runId, RunState.Ended(INFRA_ERROR)).Ok?
                               && MoveRun(s, task.runId, RetryWait).Ok?
    ensures forall t :: MoveRun(s, task.runId, t).Ok? ==>
              && MoveRun(s, task.runId, t).value.attempts == s.attempts
              && RunIs(MoveRun(s, task.runId, t).value, task, t)
  {
    match o {
      case SUCCEEDED =>
      case FAILED =>
      case CANCELLED =>
      case TIMED_OUT =>
      case INFRA_ERROR =>
    }
  }

  lemma OwnWork(limits: Limits, sys: System, id: ManagerId, m0: Manager, o: ResultOutcome, attempts: nat, left: nat,
                c: Choice) returns (fewer: nat)
    requires Inv(sys) && AtWork(sys, id, m0, o, attempts, left) && !IsLost(sys.store, m0.task)
    requires ValidPolicy(m0.task.policy)
    ensures var sys' := Apply(limits, sys, Step(id, c));
            && fewer < left
            && if fewer == 0 then Met(sys', id, m0, o, attempts) else AtWork(sys', id, m0, o, attempts, fewer)
  {
    hide Inv, ManagerStep, FateOf, AttemptsOf, Met, ValidPolicy;
    fewer := left - 1;
    if left == 1 {
      OwnFinal(sys, id, m0, o, attempts, c);
    } else if left == 2 {
      OwnEnters(sys, id, m0, o, attempts, c);
      SameAttemptsSameSet(sys.store, ManagerStep(sys.store, sys.managers[id], c).0, m0.task.runId);
    } else if left == 4 {
      OwnDecides(sys, id, m0, o, attempts, c);
      fewer := if o == CANCELLED then 3 else 1;
    } else if left in {6, 5} {
      OwnAttemptWrites(sys, id, m0, o, attempts, left, c);
    } else {
      OwnReads(sys, id, m0, o, attempts, left, c);
    }
  }

  lemma SameAttemptsSameSet(s: Store, t: Store, run: RunId)
    requires t.attempts == s.attempts
    ensures AttemptsOf(t, run) == AttemptsOf(s, run)
  {
  }

  // ------------------------------------------------- everybody else's actions

  /** Nobody but the run's own manager touches a RUNNING run or adds an attempt to it, unless it is cancelled. */
  lemma OthersKeepRunning(s: Store, m: Manager, c: Choice, run: RunId)
    requires run in s.runs && (s.runs[run].state == Running || s.runs[run].state == Cancelling)
    requires m.task.runId == run ==> !Live(m.pc) && !m.pc.ScheduleFailed?
    ensures var t := ManagerStep(s, m, c).0; run in t.runs && t.runs[run] == s.runs[run]
  {
    hide DecideRetry;
  }

  lemma NoAttemptAdded(s: Store, m: Manager, c: Choice, run: RunId)
    requires run in s.runs && (s.runs[run].state == Running || s.runs[run].state == Cancelling)
    ensures AttemptsOf(ManagerStep(s, m, c).0, run) == AttemptsOf(s, run)
  {
    hide DecideRetry;
  }

  lemma RunStaysRunning(limits: Limits, sys: System, run: RunId, a: Action)
    requires run in sys.store.runs && (sys.store.runs[run].state == Running || sys.store.runs[run].state == Cancelling)
    requires !EndsRun(sys, a, run) && a != Cancel(run)
    requires a.Step? ==> !LiveOn(sys, a.id, run)
    requires a.Sweep? ==> !HasExpired(sys.store, run, a.cutoff)
    ensures var t := Apply(limits, sys, a).store;
            run in t.runs && t.runs[run] == sys.store.runs[run] && AttemptsOf(t, run) == AttemptsOf(sys.store, run)
  {
    hide ManagerStep, HasExpired;
    if a.Step? && a.id in sys.managers {
      OthersKeepRunning(sys.store, sys.managers[a.id], a.choice, run);
      NoAttemptAdded(sys.store, sys.managers[a.id], a.choice, run);
    }
  }

  lemma OthersLeaveWork(limits: Limits, sys: System, id: ManagerId, m0: Manager, o: ResultOutcome, attempts: nat,
                        left: nat, a: Action)
    requires Inv(sys) && AtWork(sys, id, m0, o, attempts, left) && !(a.Step? && a.id == id) && a != Crash(id)
    requires !EndsRun(sys, a, m0.task.runId) && a != Cancel(m0.task.runId)
    requires !IsLost(Apply(limits, sys, a).store, m0.task)
    ensures AtWork(Apply(limits, sys, a), id, m0, o, attempts, left)
  {
    hide AttemptOk, EndsRun, IsLost, Apply, FateOf, AttemptsOf;
    var run := m0.task.runId;
    assert LiveOn(sys, id, run);
    if a.Sweep? && HasExpired(sys.store, run, a.cutoff) {
      ReapingLoses(limits, sys, id, a.cutoff);
    }
    RunStaysRunning(limits, sys, run, a);
    ManagerStays(limits, sys, a, id);
  }

  lemma ManagerStays(limits: Limits, sys: System, a: Action, id: ManagerId)
    requires id in sys.managers && !(a.Step? && a.id == id) && a != Crash(id)
    ensures id in Apply(limits, sys, a).managers && Apply(limits, sys, a).managers[id] == sys.managers[id]
  {
    hide ManagerStep;
  }

  // ------------------------------------------------- to the end

  /** Somebody cancels or ends the run, or the manager crashes. */
  predicate Disturbs(sys: System, a: Action, id: ManagerId, run: RunId) {
    || a == Crash(id) || a == Cancel(run) || a == Converge(run)
    || (a.Step? && a.id != id && a.id in sys.managers && sys.managers[a.id].pc.ScheduleFailed?
        && sys.managers[a.id].task.runId == run)
  }

  predicate Disturbed(limits: Limits, sys: System, actions: seq<Action>, id: ManagerId, run: RunId)
    decreases |actions|
  {
    actions != [] && (Disturbs(sys, actions[0], id, run)
                      || Disturbed(limits, Apply(limits, sys, actions[0]), actions[1..], id, run))
  }

  lemma MetStays(limits: Limits, sys: System, id: ManagerId, m0: Manager, o: ResultOutcome, attempts: nat, a: Action)
    requires Met(sys, id, m0, o, attempts) && a != Crash(id)
    ensures Met(Apply(limits, sys, a), id, m0, o, attempts)
  {
    hide FateOf, Apply;
    ApplyEvolves(limits, sys, a);
    if a.Step? && a.id == id {
      OwnStepAfter(limits, sys, id, o, a.choice);
    } else {
      ManagerStays(limits, sys, a, id);
    }
  }

  lemma OwnStepAfter(limits: Limits, sys: System, id: ManagerId, o: ResultOutcome, c: Choice)
    requires id in sys.managers
    ensures var sys' := Apply(limits, sys, Step(id, c));
            && id in sys'.managers
            && (sys.managers[id].pc.Returned? ==> sys'.managers[id] == sys.managers[id])
            && (AsksForRetry(sys.managers[id], o) ==> AsksForRetry(sys'.managers[id], o))
  {
    hide MoveRun, DecideRetry, MoveAttempt, CompleteAttempt, BeginAttempt;
  }

  lemma {:induction false} MetForever(limits: Limits, sys: System, actions: seq<Action>, id: ManagerId, m0: Manager,
                                      o: ResultOutcome, attempts: nat)
    requires Met(sys, id, m0, o, attempts) && Crash(id) !in actions
    ensures Met(Run(limits, sys, actions), id, m0, o, attempts)
    decreases |actions|
  {
    hide Met, Apply;
    if actions != [] {
      MetStays(limits, sys, id, m0, o, attempts, actions[0]);
      MetForever(limits, Apply(limits, sys, actions[0]), actions[1..], id, m0, o, attempts);
    }
  }

  lemma {:induction false} NoCrash(limits: Limits, sys: System, actions: seq<Action>, id: ManagerId, run: RunId)
    requires !Disturbed(limits, sys, actions, id, run)
    ensures Crash(id) !in actions
    decreases |actions|
  {
    hide Apply;
    if actions != [] {
      NoCrash(limits, Apply(limits, sys, actions[0]), actions[1..], id, run);
    }
  }

  lemma {:induction false} WorksToTheEnd(limits: Limits, sys: System, actions: seq<Action>, id: ManagerId, m0: Manager,
                                         o: ResultOutcome, attempts: nat, left: nat)
    requires Inv(sys) && AtWork(sys, id, m0, o, attempts, left) && StepsOf(actions, id) >= left
    requires ValidPolicy(m0.task.policy) && !Disturbed(limits, sys, actions, id, m0.task.runId)
    ensures IsLost(Run(limits, sys, actions).store, m0.task) || Met(Run(limits, sys, actions), id, m0, o, attempts)
    decreases |actions|
  {
    hide Inv, AtWork, Met, Apply, IsLost, ValidPolicy;
    WorkLeft(sys, id, m0, o, attempts, left);
    var a := actions[0];
    var sys' := Apply(limits, sys, a);
    if IsLost(sys'.store, m0.task) {
      LostForever(limits, sys', actions[1..], m0.task);
      return;
    }
    ApplyKeepsInv(limits, sys, a);
    if a.Step? && a.id == id {
      LossIsForever(limits, sys, a, m0.task);
      var fewer := OwnWork(limits, sys, id, m0, o, attempts, left, a.choice);
      if fewer == 0 {
        NoCrash(limits, sys', actions[1..], id, m0.task.runId);
        MetForever(limits, sys', actions[1..], id, m0, o, attempts);
      } else {
        WorksToTheEnd(limits, sys', actions[1..], id, m0, o, attempts, fewer);
      }
    } else {
      NotItsOwnSchedule(sys, id, m0, o, attempts, left);
      OthersLeaveWork(limits, sys, id, m0, o, attempts, left, a);
      WorksToTheEnd(limits, sys', actions[1..], id, m0, o, attempts, left);
    }
  }

  lemma WorkLeft(sys: System, id: ManagerId, m0: Manager, o: ResultOutcome, attempts: nat, left: nat)
    requires AtWork(sys, id, m0, o, attempts, left)
    ensures left > 0
  {
  }

  lemma NotItsOwnSchedule(sys: System, id: ManagerId, m0: Manager, o: ResultOutcome, attempts: nat, left: nat)
    requires AtWork(sys, id, m0, o, attempts, left)
    ensures id in sys.managers && !sys.managers[id].pc.ScheduleFailed?
  {
  }

  /**
    A result that arrives while its run is RUNNING and that nobody disturbs is
    acted on: eight calls later the attempt has ended with it, and the run has
    ended with it too, unless the policy retries it; then a retry has been asked
    for, or, without a scheduler, the run has ended INFRA_ERROR.
   */
  lemma ResultIsActedOn(limits: Limits, before: seq<Action>, after: seq<Action>, id: ManagerId)
    requires var sys := Run(limits, Initial, before);
             && id in sys.managers && sys.managers[id].pc.ReadCancel?
             && RunIs(sys.store, sys.managers[id].task, Running)
             && !Disturbed(limits, sys, after, id, sys.managers[id].task.runId)
    requires StepsOf(after, id) >= 8
    ensures var sys := Run(limits, Initial, before);
            var end, m := Run(limits, sys, after), sys.managers[id];
            || IsLost(end.store, m.task)
            || Met(end, id, m, m.pc.o, |AttemptsOf(sys.store, m.task.runId)|)
  {
    hide Run, Inv, Outcomes, IsLost, Disturbed, StepsOf, AttemptsOf, Met, FateOf, ValidPolicy;
    Reachable(limits, before);
    var sys := Run(limits, Initial, before);
    var m := sys.managers[id];
    WorksToTheEnd(limits, sys, after, id, m, m.pc.o, |AttemptsOf(sys.store, m.task.runId)|, 8);
  }

  lemma {:induction false} ManagerWaits(limits: Limits, sys: System, actions: seq<Action>, id: ManagerId)
    requires id in sys.managers && StepsOf(actions, id) == 0 && Crash(id) !in actions
    ensures id in Run(limits, sys, actions).managers
    ensures Run(limits, sys, actions).managers[id] == sys.managers[id]
    decreases |actions|
  {
    hide Apply;
    if actions != [] {
      ManagerStays(limits, sys, actions[0], id);
      ManagerWaits(limits, Apply(limits, sys, actions[0]), actions[1..], id);
    }
  }

  lemma {:induction false} RunJoins(limits: Limits, sys: System, before: seq<Action>, after: seq<Action>)
    ensures Run(limits, sys, before + after) == Run(limits, Run(limits, sys, before), after)
    decreases |before|
  {
    hide Apply;
    if before == [] {
      assert before + after == after;
    } else {
      assert (before + after)[1..] == before[1..] + after;
      RunJoins(limits, Apply(limits, sys, before[0]), before[1..], after);
    }
  }

  lemma ScheduleSteps(s: Store, m: Manager, c: Choice)
    requires m.pc.Schedule?
    ensures ManagerStep(s, m, c)
         == (s, m.(pc := if c.schedulerFails then ScheduleFailed(m.pc.o) else Returned(RetryScheduled(m.pc.o))))
  {
  }

  /**
    A scheduler that takes the retry lets the manager return; one that fails
    makes the manager's next call, whenever it comes, end the run if nothing
    else has ended it by then.
   */
  lemma SchedulingDecides(limits: Limits, before: seq<Action>, id: ManagerId, c: Choice, between: seq<Action>,
                          next: Choice)
    requires var sys := Run(limits, Initial, before); id in sys.managers && sys.managers[id].pc.Schedule?
    requires StepsOf(between, id) == 0 && Crash(id) !in between
    ensures var sys := Run(limits, Initial, before);
            var m := sys.managers[id];
            var later := Run(limits, Apply(limits, sys, Step(id, c)), between);
            && id in later.managers
            && if c.schedulerFails then HasEnded(Apply(limits, later, Step(id, next)).store, m.task.runId)
               else later.managers[id].pc == Returned(RetryScheduled(m.pc.o))
  {
    hide Run, Inv, Outcomes, Policies, ManagerStep, StepsOf;
    var sys := Run(limits, Initial, before);
    ScheduleSteps(sys.store, sys.managers[id], c);
    var sys' := Apply(limits, sys, Step(id, c));
    ManagerWaits(limits, sys', between, id);
    if c.schedulerFails {
      RunAppend(limits, Initial, before, Step(id, c));
      RunJoins(limits, Initial, before + [Step(id, c)], between);
      FailedRetryEndsRun(limits, before + [Step(id, c)] + between, id, next);
    }
  }

  /** A retry that cannot be scheduled ends the run. */
  lemma FailedRetryEndsRun(limits: Limits, before: seq<Action>, id: ManagerId, c: Choice)
    requires var sys := Run(limits, Initial, before); id in sys.managers && sys.managers[id].pc.ScheduleFailed?
    ensures var sys := Run(limits, Initial, before);
            HasEnded(Apply(limits, sys, Step(id, c)).store, sys.managers[id].task.runId)
  {
    hide Run, Inv, Outcomes, Policies, MoveAttempt, CompleteAttempt, BeginAttempt, DecideRetry;
    Reachable(limits, before);
    EscapesExactly(Run(limits, Initial, before), id, c);
  }

  // ------------------------------------------------- engines

  /** The manager has looked at its run and accepted it. */
  predicate HasAccepted(pc: Pc) {
    !pc.ReadRun? && !pc.Refused? && !pc.Crashed?
  }

  ghost predicate Engines(sys: System) {
    forall m | m in sys.managers && HasAccepted(sys.managers[m].pc) ::
      var task := sys.managers[m].task;
      task.runId in sys.store.runs && sys.store.runs[task.runId].engine == task.engine
  }

  lemma StepAccepts(s: Store, m: Manager, c: Choice)
    requires HasAccepted(ManagerStep(s, m, c).1.pc) && !HasAccepted(m.pc)
    ensures m.task.runId in s.runs && s.runs[m.task.runId].engine == m.task.engine
  {
  }

  lemma ApplyKeepsEngines(limits: Limits, sys: System, a: Action)
    requires Engines(sys)
    ensures Engines(Apply(limits, sys, a))
  {
    hide ManagerStep, HasAccepted;
    ApplyEvolves(limits, sys, a);
    var sys' := Apply(limits, sys, a);
    forall m | m in sys'.managers && HasAccepted(sys'.managers[m].pc)
      ensures var task := sys'.managers[m].task;
              task.runId in sys'.store.runs && sys'.store.runs[task.runId].engine == task.engine
    {
      if a.Step? && a.id == m {
        StepKeepsTask(sys.store, sys.managers[m], a.choice);
        if !HasAccepted(sys.managers[m].pc) {
          StepAccepts(sys.store, sys.managers[m], a.choice);
        }
      } else {
        OthersKeepTheManager(limits, sys, a, m);
        FreshHasNotAccepted();
      }
    }
  }

  lemma FreshHasNotAccepted()
    ensures !HasAccepted(ReadRun) && !HasAccepted(Crashed)
  {
  }

  lemma {:induction false} RunKeepsEngines(limits: Limits, sys: System, actions: seq<Action>)
    requires Engines(sys)
    ensures Engines(Run(limits, sys, actions))
    decreases |actions|
  {
    hide Engines, Apply;
    if actions != [] {
      ApplyKeepsEngines(limits, sys, actions[0]);
      RunKeepsEngines(limits, Apply(limits, sys, actions[0]), actions[1..]);
    }
  }

  /** Whatever happens, no task is executed against a run of another engine. */
  lemma EnginesAgree(limits: Limits, actions: seq<Action>, id: ManagerId)
    requires var sys := Run(limits, Initial, actions); id in sys.managers && HasAccepted(sys.managers[id].pc)
    ensures var sys := Run(limits, Initial, actions);
            var task := sys.managers[id].task;
            task.runId in sys.store.runs && sys.store.runs[task.runId].engine == task.engine
  {
    RunKeepsEngines(limits, Initial, actions);
  }
}
