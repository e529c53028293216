/**
  What a cancellation does to an attempt that has succeeded: it turns the result
  into CANCELLED exactly when it is there at the manager's look, and strands the
  run when it lands later.
 */
module RunCancellation {
  import opened Wrappers
  import opened RunDomain
  import opened RunStore
  import opened RunProtocol
  import opened RunSafety
  import opened RunHistory
  import opened RunStranding

  // ------------------------------------------------- policies stay valid

  ghost predicate Policies(sys: System) {
    forall m | m in sys.managers :: ValidPolicy(sys.managers[m].task.policy)
  }

  lemma StepKeepsTask(s: Store, m: Manager, c: Choice)
    ensures ManagerStep(s, m, c).1.task == m.task
  {
    hide MoveRun, MoveAttempt, CompleteAttempt, BeginAttempt, DecideRetry;
  }

  lemma ApplyKeepsPolicies(limits: Limits, sys: System, a: Action)
    requires Policies(sys)
    ensures Policies(Apply(limits, sys, a))
  {
    hide ManagerStep;
    if a.Step? && a.id in sys.managers {
      StepKeepsTask(sys.store, sys.managers[a.id], a.choice);
    }
  }

  lemma {:induction false} RunKeepsPolicies(limits: Limits, sys: System, actions: seq<Action>)
    requires Policies(sys)
    ensures Policies(Run(limits, sys, actions))
    decreases |actions|
  {
    hide Apply;
    if actions != [] {
      ApplyKeepsPolicies(limits, sys, actions[0]);
      RunKeepsPolicies(limits, Apply(limits, sys, actions[0]), actions[1..]);
    }
  }

  // --------------------------------------------- a finished attempt under cancellation

  /** How many calls are left to a manager that will finish its attempt with `o` while its run is being cancelled. */
  function Left(o: ResultOutcome, pc: Pc): Option<nat> {
    match pc
    case ReadCancel(x) => if x == SUCCEEDED && o == CANCELLED then Some(7) else None
    case ReadLost(x) => if x == o then Some(6) else None
    case Collect(x) => if x == o then Some(5) else None
    case Complete(x) => if x == o then Some(4) else None
    case Decide(x) => if x == o then Some(3) else None
    case ReadCancelling => if o == CANCELLED then Some(2) else None
    case WriteFinal(x) => if x == o then Some(1) else None
    case Returned(end) => if o == CANCELLED && end == Recorded(o) then Some(0) else None
    case Escaped => if o == SUCCEEDED then Some(0) else None
    case _ => None
  }

  predicate RunIs(s: Store, task: Task, state: RunState) {
    task.runId in s.runs && s.runs[task.runId].state == state
  }

  /** No attempt of the run is leased and no manager is live on it. */
  ghost predicate Quiet(sys: System, run: RunId) {
    (forall a :: !LeasedOn(sys.store, a, run)) && (forall m :: !LiveOn(sys, m, run))
  }

  /** The attempt is over with `o`; a CANCELLED one has ended its run, a SUCCEEDED one has left it CANCELLING. */
  ghost predicate IsSettled(sys: System, task: Task, o: ResultOutcome) {
    && AttemptIs(sys.store, task, Finished(o))
    && RunIs(sys.store, task, if o == CANCELLED then RunState.Ended(CANCELLED) else Cancelling)
    && (o == SUCCEEDED ==> Quiet(sys, task.runId))
  }

  ghost predicate OnTheWay(sys: System, id: ManagerId, task: Task, o: ResultOutcome, left: nat) {
    && (o == CANCELLED || o == SUCCEEDED)
    && id in sys.managers && sys.managers[id].task == task && Left(o, sys.managers[id].pc) == Some(left)
    && if left == 0 then IsSettled(sys, task, o)
       else RunIs(sys.store, task, Cancelling)
  }

  predicate IsLost(s: Store, task: Task) {
    task.attemptId in s.attempts && s.attempts[task.attemptId].state == Lost
  }

  /** Somebody else ends the run: it is converged, or an earlier attempt's retry cannot be scheduled. */
  predicate EndsRun(sys: System, a: Action, run: RunId) {
    || a == Converge(run)
    || (a.Step? && a.id in sys.managers && sys.managers[a.id].pc.ScheduleFailed?
        && sys.managers[a.id].task.runId == run)
  }

  predicate Interrupted(limits: Limits, sys: System, actions: seq<Action>, run: RunId)
    decreases |actions|
  {
    actions != [] && (EndsRun(sys, actions[0], run)
                      || Interrupted(limits, Apply(limits, sys, actions[0]), actions[1..], run))
  }

  function StepsOf(actions: seq<Action>, id: ManagerId): nat {
    if actions == [] then 0
    else (if actions[0].Step? && actions[0].id == id then 1 else 0) + StepsOf(actions[1..], id)
  }

  /** The calls that look at the run and at the attempt once the result is there. */
  lemma OwnLook(sys: System, id: ManagerId, task: Task, o: ResultOutcome, left: nat, c: Choice)
    requires Inv(sys) && Policies(sys) && OnTheWay(sys, id, task, o, left) && !IsLost(sys.store, task)
    requires left in {7, 6}
    ensures var (t, n) := ManagerStep(sys.store, sys.managers[id], c);
            t == sys.store && n.task == task && Left(o, n.pc).Some? && 0 < Left(o, n.pc).value < left
  {
    hide Inv, Policies, DecideRetry;
    LiveFacts(sys, id);
  }

  /** Neither SUCCEEDED nor CANCELLED is retried. */
  lemma OwnDecision(sys: System, id: ManagerId, task: Task, o: ResultOutcome, left: nat, c: Choice)
    requires Inv(sys) && Policies(sys) && OnTheWay(sys, id, task, o, left)
    requires left in {3, 2}
    ensures var (t, n) := ManagerStep(sys.store, sys.managers[id], c);
            t == sys.store && n.task == task && Left(o, n.pc).Some? && 0 < Left(o, n.pc).value < left
  {
    hide Inv, MayRepeat;
    LiveFacts(sys, id);
  }

  /** The two calls that collect and complete the attempt. */
  lemma OwnWrite(sys: System, id: ManagerId, task: Task, o: ResultOutcome, left: nat, c: Choice)
    requires Inv(sys) && OnTheWay(sys, id, task, o, left) && !IsLost(sys.store, task)
    requires left in {5, 4}
    ensures var (t, n) := ManagerStep(sys.store, sys.managers[id], c);
            t.runs == sys.store.runs && n.task == task && Left(o, n.pc).Some? && 0 < Left(o, n.pc).value < left
  {
    hide Inv, MayRepeat, MoveRun;
    LiveFacts(sys, id);
  }

  /** The final write: accepted for CANCELLED, refused for SUCCEEDED. */
  lemma OwnEnd(sys: System, id: ManagerId, task: Task, o: ResultOutcome, c: Choice)
    requires Inv(sys) && OnTheWay(sys, id, task, o, 1)
    ensures var (t, n) := ManagerStep(sys.store, sys.managers[id], c);
            && n.task == task && Left(o, n.pc) == Some(0) && !Live(n.pc)
            && t.attempts == sys.store.attempts && t.runs.Keys == sys.store.runs.Keys
            && AttemptIs(t, task, Finished(o))
            && RunIs(t, task, if o == CANCELLED then RunState.Ended(CANCELLED) else Cancelling)
  {
    hide Inv, MayRepeat, MoveAttempt, CompleteAttempt;
    LiveFacts(sys, id);
  }

  /** Once the live manager has left, its run is quiet. */
  lemma QuietAfter(sys: System, id: ManagerId, t: Store, n: Manager)
    requires Inv(sys) && id in sys.managers && sys.managers[id].pc.WriteFinal? && !Live(n.pc)
    requires t.attempts == sys.store.attempts
    ensures Quiet(sys.(store := t, managers := sys.managers[id := n]), sys.managers[id].task.runId)
  {
    hide AttemptOk;
    LiveFacts(sys, id);
    var run := sys.managers[id].task.runId;
    var sys' := sys.(store := t, managers := sys.managers[id := n]);
    assert LiveOn(sys, id, run);
    forall m
      ensures !LiveOn(sys', m, run)
    {
      assert LiveOn(sys', m, run) ==> LiveOn(sys, m, run);
    }
    assert forall a :: LeasedOn(t, a, run) ==> LeasedOn(sys.store, a, run);
  }

  lemma OwnCall(limits: Limits, sys: System, id: ManagerId, task: Task, o: ResultOutcome, left: nat, c: Choice)
    returns (fewer: nat)
    requires Inv(sys) && Policies(sys) && OnTheWay(sys, id, task, o, left) && left > 0 && !IsLost(sys.store, task)
    ensures fewer < left && OnTheWay(Apply(limits, sys, Step(id, c)), id, task, o, fewer)
  {
    hide Inv, Policies, ManagerStep, Quiet;
    var (t, n) := ManagerStep(sys.store, sys.managers[id], c);
    if left == 1 {
      OwnEnd(sys, id, task, o, c);
      QuietAfter(sys, id, t, n);
    } else if left in {5, 4} {
      OwnWrite(sys, id, task, o, left, c);
    } else if left in {3, 2} {
      OwnDecision(sys, id, task, o, left, c);
    } else {
      OwnLook(sys, id, task, o, left, c);
    }
    fewer := Left(o, n.pc).value;
  }

  // ------------------------------------------------- everybody else's actions

  lemma OthersKeepTheRun(s: Store, m: Manager, c: Choice, run: RunId)
    requires run in s.runs && s.runs[run].state == Cancelling
    requires m.task.runId == run ==> !Live(m.pc) && !m.pc.ScheduleFailed?
    ensures var (t, n) := ManagerStep(s, m, c);
            run in t.runs && t.runs[run] == s.runs[run] && n.task == m.task && (m.task.runId == run ==> !Live(n.pc))
  {
    hide DecideRetry;
  }

  /** Nobody but the run's own manager can touch it, short of reaping one of its attempts. */
  lemma RunStaysCancelling(limits: Limits, sys: System, run: RunId, a: Action)
    requires run in sys.store.runs && sys.store.runs[run].state == Cancelling && !EndsRun(sys, a, run)
    requires a.Step? ==> !LiveOn(sys, a.id, run)
    requires a.Sweep? ==> !HasExpired(sys.store, run, a.cutoff)
    ensures var t := Apply(limits, sys, a).store; run in t.runs && t.runs[run] == sys.store.runs[run]
  {
    hide ManagerStep, HasExpired;
    if a.Step? && a.id in sys.managers {
      OthersKeepTheRun(sys.store, sys.managers[a.id], a.choice, run);
    }
  }

  /** A sweep that reaps on a live manager's run reaps that manager's attempt. */
  lemma ReapingLoses(limits: Limits, sys: System, id: ManagerId, cutoff: int)
    requires Inv(sys) && id in sys.managers && Live(sys.managers[id].pc)
    requires HasExpired(sys.store, sys.managers[id].task.runId, cutoff)
    ensures IsLost(Apply(limits, sys, Sweep(cutoff)).store, sys.managers[id].task)
  {
    hide AttemptOk;
    var run := sys.managers[id].task.runId;
    SweepKeepsInv(sys, cutoff);
    assert LiveOn(sys, id, run);
    var x :| x in sys.store.attempts && sys.store.attempts[x].runId == run && Expired(sys.store.attempts[x], cutoff);
    assert LeasedOn(sys.store, x, run);
  }

  lemma OthersLeaveOnTheWay(limits: Limits, sys: System, id: ManagerId, task: Task, o: ResultOutcome, left: nat,
                            a: Action)
    requires Inv(sys) && OnTheWay(sys, id, task, o, left) && left > 0 && !(a.Step? && a.id == id) && a != Crash(id)
    requires !EndsRun(sys, a, task.runId) && !IsLost(Apply(limits, sys, a).store, task)
    ensures OnTheWay(Apply(limits, sys, a), id, task, o, left)
  {
    hide AttemptOk, EndsRun, IsLost, ManagerStep, MoveRun, RenewLease, ExpireLeases;
    assert LiveOn(sys, id, task.runId);
    if a.Sweep? && HasExpired(sys.store, task.runId, a.cutoff) {
      ReapingLoses(limits, sys, id, a.cutoff);
    }
    RunStaysCancelling(limits, sys, task.runId, a);
  }

  // ------------------------------------------------- what is settled stays settled

  lemma QuietStays(limits: Limits, sys: System, a: Action, run: RunId)
    requires Quiet(sys, run) && run in sys.store.runs && sys.store.runs[run].state == Cancelling
    requires forall m | m in sys.managers :: ManagerOk(sys, m)
    requires !EndsRun(sys, a, run)
    ensures Quiet(Apply(limits, sys, a), run)
  {
    if a.Step? {
      StepKeepsQuiet(limits, sys, a.id, a.choice, run);
    } else {
      EnvironmentKeepsQuiet(limits, sys, a, run);
    }
  }

  lemma StepKeepsQuiet(limits: Limits, sys: System, id: ManagerId, c: Choice, run: RunId)
    requires Quiet(sys, run) && run in sys.store.runs && sys.store.runs[run].state == Cancelling
    requires id in sys.managers ==> ManagerOk(sys, id)
    requires !EndsRun(sys, Step(id, c), run)
    ensures Quiet(Apply(limits, sys, Step(id, c)), run)
  {
    var sys' := Apply(limits, sys, Step(id, c));
    if id in sys.managers {
      assert !LiveOn(sys, id, run);
      OthersKeepTheRun(sys.store, sys.managers[id], c, run);
      OthersLeaseNothing(sys.store, sys.managers[id], c, run);
      hide ManagerStep;
      forall m
        ensures !LiveOn(sys', m, run)
      {
        assert !LiveOn(sys, m, run);
      }
    }
  }

  lemma OthersLeaseNothing(s: Store, m: Manager, c: Choice, run: RunId)
    requires run in s.runs && s.runs[run].state == Cancelling && (forall a :: !LeasedOn(s, a, run))
    requires m.task.runId == run ==> !Live(m.pc)
    requires m.task.attemptId in s.attempts && Live(m.pc) ==> s.attempts[m.task.attemptId].runId == m.task.runId
    ensures forall a :: !LeasedOn(ManagerStep(s, m, c).0, a, run)
  {
    hide DecideRetry;
    forall a
      ensures !LeasedOn(ManagerStep(s, m, c).0, a, run)
    {
      assert !LeasedOn(s, a, run);
    }
  }

  lemma EnvironmentKeepsQuiet(limits: Limits, sys: System, a: Action, run: RunId)
    requires Quiet(sys, run) && !a.Step?
    ensures Quiet(Apply(limits, sys, a), run)
  {
    hide ManagerStep, Sweepable;
    var sys' := Apply(limits, sys, a);
    forall x
      ensures !LeasedOn(sys'.store, x, run)
    {
      assert !LeasedOn(sys.store, x, run);
    }
    forall m
      ensures !LiveOn(sys', m, run)
    {
      assert !LiveOn(sys, m, run);
    }
  }

  lemma SettledStays(limits: Limits, sys: System, task: Task, o: ResultOutcome, a: Action)
    requires Inv(sys) && IsSettled(sys, task, o) && (o == CANCELLED || o == SUCCEEDED) && !EndsRun(sys, a, task.runId)
    ensures IsSettled(Apply(limits, sys, a), task, o)
  {
    hide Apply, EndsRun, ManagerOk, OneLive;
    ApplyEvolves(limits, sys, a);
    if o == SUCCEEDED {
      QuietStays(limits, sys, a, task.runId);
      QuietMeans(sys, a, task.runId);
      RunStaysCancelling(limits, sys, task.runId, a);
    }
  }

  lemma QuietMeans(sys: System, a: Action, run: RunId)
    requires Quiet(sys, run)
    ensures a.Step? ==> !LiveOn(sys, a.id, run)
    ensures a.Sweep? ==> !HasExpired(sys.store, run, a.cutoff)
  {
    assert forall x | x in sys.store.attempts && sys.store.attempts[x].runId == run :: !LeasedOn(sys.store, x, run);
  }

  // ------------------------------------------------- to the end

  lemma OneAction(limits: Limits, sys: System, id: ManagerId, task: Task, o: ResultOutcome, left: nat, a: Action)
    returns (fewer: nat)
    requires Inv(sys) && Policies(sys) && OnTheWay(sys, id, task, o, left) && a != Crash(id)
    requires !EndsRun(sys, a, task.runId) && !IsLost(Apply(limits, sys, a).store, task)
    ensures OnTheWay(Apply(limits, sys, a), id, task, o, fewer)
    ensures fewer <= if left > 0 && a.Step? && a.id == id then left - 1 else left
  {
    hide Inv, Policies, EndsRun, IsSettled, ManagerStep;
    if left == 0 {
      SettledStays(limits, sys, task, o, a);
      fewer := 0;
      LeftStays(limits, sys, id, a);
    } else if a.Step? && a.id == id {
      LossIsForever(limits, sys, a, task);
      fewer := OwnCall(limits, sys, id, task, o, left, a.choice);
    } else {
      OthersLeaveOnTheWay(limits, sys, id, task, o, left, a);
      fewer := left;
    }
  }

  lemma LeftStays(limits: Limits, sys: System, id: ManagerId, a: Action)
    requires id in sys.managers && (sys.managers[id].pc.Returned? || sys.managers[id].pc.Escaped?) && a != Crash(id)
    ensures id in Apply(limits, sys, a).managers && Apply(limits, sys, a).managers[id] == sys.managers[id]
  {
  }

  lemma LossIsForever(limits: Limits, sys: System, a: Action, task: Task)
    ensures IsLost(sys.store, task) ==> IsLost(Apply(limits, sys, a).store, task)
  {
    hide Apply;
    ApplyEvolves(limits, sys, a);
  }

  lemma LostForever(limits: Limits, sys: System, actions: seq<Action>, task: Task)
    requires IsLost(sys.store, task)
    ensures IsLost(Run(limits, sys, actions).store, task)
  {
    hide Apply;
    TerminalIsForever(limits, sys, actions);
  }

  /** With enough calls of its own a manager on the way arrives, unless it is stopped. */
  lemma {:induction false} Arrives(limits: Limits, sys: System, actions: seq<Action>, id: ManagerId, task: Task,
                                   o: ResultOutcome, left: nat)
    requires Inv(sys) && Policies(sys) && OnTheWay(sys, id, task, o, left) && StepsOf(actions, id) >= left
    requires Crash(id) !in actions && !Interrupted(limits, sys, actions, task.runId)
    ensures IsLost(Run(limits, sys, actions).store, task) || OnTheWay(Run(limits, sys, actions), id, task, o, 0)
    decreases |actions|
  {
    hide Inv, Policies, OnTheWay, Apply, IsLost, EndsRun;
    if actions != [] {
      var a := actions[0];
      var sys' := Apply(limits, sys, a);
      if IsLost(sys'.store, task) {
        LostForever(limits, sys', actions[1..], task);
      } else {
        var fewer := OneAction(limits, sys, id, task, o, left, a);
        ApplyKeepsInv(limits, sys, a);
        ApplyKeepsPolicies(limits, sys, a);
        Arrives(limits, sys', actions[1..], id, task, o, fewer);
      }
    }
  }

  // ------------------------------------------------------------ main results

  /** What every reachable state satisfies. */
  lemma Reachable(limits: Limits, actions: seq<Action>)
    ensures var sys := Run(limits, Initial, actions); Inv(sys) && Outcomes(sys) && Policies(sys)
  {
    hide Run;
    RunKeepsOutcomes(limits, Initial, actions);
    RunKeepsPolicies(limits, Initial, actions);
  }

  /** The manager has a SUCCEEDED result and is about to look whether its run is being cancelled. */
  predicate AtItsLook(sys: System, id: ManagerId) {
    && id in sys.managers && sys.managers[id].pc == ReadCancel(SUCCEEDED)
    && sys.managers[id].task.runId in sys.store.runs
  }

  /** The manager has looked, found no cancellation, and has not tried its final write yet. */
  predicate HasLooked(pc: Pc) {
    pc in {ReadLost(SUCCEEDED), Collect(SUCCEEDED), Complete(SUCCEEDED), Decide(SUCCEEDED), WriteFinal(SUCCEEDED)}
  }

  /**
    A cancellation that is there when the manager looks turns its SUCCEEDED
    result into CANCELLED: seven calls later it has returned, and attempt and
    run have both ended CANCELLED. Only a crash, a lost lease, a convergence or
    an earlier attempt's failing retry can prevent it.
   */
  lemma CancelSeenIsRecorded(limits: Limits, before: seq<Action>, after: seq<Action>, id: ManagerId)
    requires var sys := Run(limits, Initial, before);
             && AtItsLook(sys, id) && RunIs(sys.store, sys.managers[id].task, Cancelling)
             && !Interrupted(limits, sys, after, sys.managers[id].task.runId)
    requires StepsOf(after, id) >= 7 && Crash(id) !in after
    ensures var sys := Run(limits, Initial, before);
            var end, task := Run(limits, sys, after), sys.managers[id].task;
            || IsLost(end.store, task)
            || (&& id in end.managers && end.managers[id].pc == Returned(Recorded(CANCELLED))
                && AttemptIs(end.store, task, Finished(CANCELLED)) && RunIs(end.store, task, RunState.Ended(CANCELLED)))
  {
    hide Run, Inv, Outcomes, Policies, IsLost, Interrupted, StepsOf, AttemptIs;
    Reachable(limits, before);
    var sys := Run(limits, Initial, before);
    Arrives(limits, sys, after, id, sys.managers[id].task, CANCELLED, 7);
  }

  /** A cancellation that lands after the look and before the final write strands the run. */
  lemma LateCancelAlwaysStrands(limits: Limits, before: seq<Action>, after: seq<Action>, id: ManagerId)
    requires var sys := Run(limits, Initial, before);
             && id in sys.managers && HasLooked(sys.managers[id].pc)
             && RunIs(sys.store, sys.managers[id].task, Cancelling)
             && !Interrupted(limits, sys, after, sys.managers[id].task.runId)
    requires StepsOf(after, id) >= 6 && Crash(id) !in after
    ensures var sys := Run(limits, Initial, before);
            var end, task := Run(limits, sys, after), sys.managers[id].task;
            || IsLost(end.store, task)
            || (&& id in end.managers && end.managers[id].pc == Escaped
                && AttemptIs(end.store, task, Finished(SUCCEEDED)) && RunIs(end.store, task, Cancelling))
  {
    hide Run, Inv, Outcomes, Policies, IsLost, Interrupted, StepsOf, AttemptIs;
    Reachable(limits, before);
    var sys := Run(limits, Initial, before);
    var left := Left(SUCCEEDED, sys.managers[id].pc).value;
    Arrives(limits, sys, after, id, sys.managers[id].task, SUCCEEDED, left);
  }

  // ------------------------------------------------- only a late cancellation

  /** The manager has a SUCCEEDED result it no longer reconsiders, or has left with one. */
  predicate PastItsLook(sys: System, id: ManagerId) {
    && id in sys.managers
    && (HasLooked(sys.managers[id].pc)
        || (sys.managers[id].pc == Escaped && AttemptIs(sys.store, sys.managers[id].task, Finished(SUCCEEDED))))
  }

  /** Action `k` was the manager's look, and its run was not being cancelled then. */
  ghost predicate LookedInVain(limits: Limits, actions: seq<Action>, id: ManagerId, run: RunId, k: nat) {
    && k < |actions| && actions[k].Step? && actions[k].id == id
    && var sys := Run(limits, Initial, actions[..k]);
       AtItsLook(sys, id) && sys.managers[id].task.runId == run && sys.store.runs[run].state != Cancelling
  }

  lemma OnlyCancelCancels(limits: Limits, sys: System, a: Action, run: RunId)
    requires run in sys.store.runs && sys.store.runs[run].state != Cancelling
    requires var t := Apply(limits, sys, a).store; run in t.runs && t.runs[run].state == Cancelling
    ensures || a == Cancel(run)
            || (a.Step? && a.id in sys.managers && sys.managers[a.id].pc.EnterCancelling?
                && sys.managers[a.id].task.runId == run)
  {
    hide DecideRetry, AttemptMay;
  }

  lemma EscapedFacts(sys: System, id: ManagerId)
    requires Outcomes(sys) && id in sys.managers && sys.managers[id].pc == Escaped
    ensures AttemptOver(sys.store, sys.managers[id].task) && HasStopped(sys.store, sys.managers[id].task.runId)
  {
    assert EndOk(sys.store, sys.managers[id]);
  }

  /** A run past its manager's look can only be moved to CANCELLING from outside. */
  lemma CancelledFromOutside(limits: Limits, sys: System, a: Action, id: ManagerId)
    requires Inv(sys) && Outcomes(sys) && PastItsLook(sys, id)
    requires var task := sys.managers[id].task;
             task.runId in sys.store.runs && !RunIs(sys.store, task, Cancelling)
             && RunIs(Apply(limits, sys, a).store, task, Cancelling)
    ensures a == Cancel(sys.managers[id].task.runId)
  {
    hide Apply, Inv, Outcomes;
    var run := sys.managers[id].task.runId;
    ApplyEvolves(limits, sys, a);
    OnlyCancelCancels(limits, sys, a, run);
    if sys.managers[id].pc == Escaped {
      EscapedFacts(sys, id);
    } else if a.Step? {
      OneManagerLive(sys, id, a.id, run);
    }
  }

  lemma OneManagerLive(sys: System, id: ManagerId, other: ManagerId, run: RunId)
    requires Inv(sys) && LiveOn(sys, id, run)
    ensures LiveOn(sys, other, run) ==> other == id
  {
    hide AttemptOk, ManagerOk;
  }

  lemma LooksNow(s: Store, m: Manager, c: Choice)
    requires HasLooked(ManagerStep(s, m, c).1.pc) && !HasLooked(m.pc)
    ensures m.pc == ReadCancel(SUCCEEDED) && m.task.runId in s.runs && !RunIs(s, m.task, Cancelling)
    ensures ManagerStep(s, m, c).0 == s
  {
    hide MoveRun, MoveAttempt, CompleteAttempt, BeginAttempt, DecideRetry;
  }

  lemma EscapeChangesNothing(s: Store, m: Manager, c: Choice)
    requires ManagerStep(s, m, c).1.pc == Escaped
    ensures ManagerStep(s, m, c).0 == s
  {
    hide MoveRun, MoveAttempt, CompleteAttempt, BeginAttempt, DecideRetry;
  }

  /** Of the managers that escape, only one that has looked leaves a SUCCEEDED attempt behind. */
  lemma EscapesFromFinalWrite(s: Store, m: Manager, c: Choice)
    requires ManagerStep(s, m, c).1.pc == Escaped && AttemptIs(s, m.task, Finished(SUCCEEDED))
    requires ValidPolicy(m.task.policy) && EndOk(s, m) && InTouch(s, m)
    ensures m.pc == Escaped || HasLooked(m.pc)
  {
    hide MoveRun, MoveAttempt, CompleteAttempt, BeginAttempt, DecideRetry, MayRepeat;
  }

  lemma StepPastItsLook(sys: System, id: ManagerId, c: Choice)
    requires Inv(sys) && Outcomes(sys) && Policies(sys) && id in sys.managers
    requires PastItsLook(sys.(store := ManagerStep(sys.store, sys.managers[id], c).0,
                              managers := sys.managers[id := ManagerStep(sys.store, sys.managers[id], c).1]), id)
    ensures || PastItsLook(sys, id)
            || (&& AtItsLook(sys, id) && !RunIs(sys.store, sys.managers[id].task, Cancelling)
                && ManagerStep(sys.store, sys.managers[id], c).0 == sys.store)
  {
    hide ManagerStep, OneLive, EndOk, Tracks;
    var m := sys.managers[id];
    assert EndOk(sys.store, m) && ManagerOk(sys, id);
    StepKeepsTask(sys.store, m, c);
    if HasLooked(ManagerStep(sys.store, m, c).1.pc) {
      if !HasLooked(m.pc) {
        LooksNow(sys.store, m, c);
      }
    } else {
      EscapeChangesNothing(sys.store, m, c);
      EscapesFromFinalWrite(sys.store, m, c);
    }
  }

  lemma ActionPastItsLook(limits: Limits, sys: System, a: Action, id: ManagerId)
    requires Inv(sys) && Outcomes(sys) && Policies(sys) && PastItsLook(Apply(limits, sys, a), id)
    requires !PastItsLook(sys, id)
    ensures a.Step? && a.id == id && AtItsLook(sys, id) && !RunIs(sys.store, sys.managers[id].task, Cancelling)
    ensures Apply(limits, sys, a).store == sys.store && Apply(limits, sys, a).managers[id].task == sys.managers[id].task
  {
    hide Inv, Outcomes, Policies, ManagerStep;
    if a.Step? && a.id == id && id in sys.managers {
      StepPastItsLook(sys, id, a.choice);
      StepKeepsTask(sys.store, sys.managers[id], a.choice);
    } else {
      hide Apply;
      ApplyEvolves(limits, sys, a);
      OthersKeepTheManager(limits, sys, a, id);
      if id in sys.managers && sys.managers[id].pc == Escaped {
        EscapedFacts(sys, id);
      }
    }
  }

  lemma OthersKeepTheManager(limits: Limits, sys: System, a: Action, id: ManagerId)
    requires !(a.Step? && a.id == id) && id in Apply(limits, sys, a).managers
    ensures var m := Apply(limits, sys, a).managers[id];
            m.pc == ReadRun || m.pc == Crashed || (id in sys.managers && m == sys.managers[id])
  {
    hide ManagerStep;
  }

  ghost predicate CancelledLate(limits: Limits, actions: seq<Action>, id: ManagerId, run: RunId, k: nat) {
    && LookedInVain(limits, actions, id, run, k)
    && var s := Run(limits, Initial, actions).store;
       run in s.runs && (s.runs[run].state == Cancelling ==> Cancel(run) in actions[k + 1..])
  }

  lemma {:induction false} LateCancellation(limits: Limits, actions: seq<Action>, id: ManagerId) returns (k: nat)
    requires PastItsLook(Run(limits, Initial, actions), id)
    ensures CancelledLate(limits, actions, id, Run(limits, Initial, actions).managers[id].task.runId, k)
    decreases |actions|
  {
    hide Run, Apply, Inv, Outcomes, Policies, PastItsLook, CancelledLate;
    var n := |actions| - 1;
    NotAtFirst(limits, actions, id);
    var before, a := actions[..n], actions[n];
    assert actions == before + [a];
    RunAppend(limits, Initial, before, a);
    Reachable(limits, before);
    var sys := Run(limits, Initial, before);
    if PastItsLook(sys, id) {
      k := LateCancellation(limits, before, id);
      StillLate(limits, before, a, id, k);
    } else {
      ActionPastItsLook(limits, sys, a, id);
      k := n;
      LateNow(limits, before, a, id);
    }
  }

  lemma NotAtFirst(limits: Limits, actions: seq<Action>, id: ManagerId)
    requires PastItsLook(Run(limits, Initial, actions), id)
    ensures actions != []
  {
  }

  lemma LateNow(limits: Limits, before: seq<Action>, a: Action, id: ManagerId)
    requires var sys := Run(limits, Initial, before);
             && AtItsLook(sys, id) && !RunIs(sys.store, sys.managers[id].task, Cancelling)
             && Apply(limits, sys, a).store == sys.store
    requires a.Step? && a.id == id
    ensures CancelledLate(limits, before + [a], id, Run(limits, Initial, before).managers[id].task.runId, |before|)
  {
    hide Run, Apply;
    RunAppend(limits, Initial, before, a);
    assert (before + [a])[..|before|] == before;
  }

  lemma StillLate(limits: Limits, before: seq<Action>, a: Action, id: ManagerId, k: nat)
    requires PastItsLook(Run(limits, Initial, before), id) && PastItsLook(Run(limits, Initial, before + [a]), id)
    requires CancelledLate(limits, before, id, Run(limits, Initial, before).managers[id].task.runId, k)
    ensures CancelledLate(limits, before + [a], id, Run(limits, Initial, before + [a]).managers[id].task.runId, k)
  {
    hide Run, Apply, Inv, Outcomes, Policies;
    var sys := Run(limits, Initial, before);
    Reachable(limits, before);
    RunAppend(limits, Initial, before, a);
    assert (before + [a])[..k] == before[..k];
    assert (before + [a])[k + 1..] == before[k + 1..] + [a];
    TaskStays(limits, sys, a, id);
    ApplyEvolves(limits, sys, a);
    var run := sys.managers[id].task.runId;
    if sys.store.runs[run].state != Cancelling && Apply(limits, sys, a).store.runs[run].state == Cancelling {
      CancelledFromOutside(limits, sys, a, id);
    }
  }

  lemma TaskStays(limits: Limits, sys: System, a: Action, id: ManagerId)
    requires id in sys.managers
    ensures id in Apply(limits, sys, a).managers && Apply(limits, sys, a).managers[id].task == sys.managers[id].task
  {
    hide ManagerStep;
    if a.Step? && a.id in sys.managers {
      StepKeepsTask(sys.store, sys.managers[a.id], a.choice);
    }
  }

  /**
    The stranding window is exact: a run left CANCELLING behind a SUCCEEDED
    attempt was not being cancelled when its manager looked, and was cancelled
    afterwards.
   */
  lemma OnlyLateCancelStrands(limits: Limits, actions: seq<Action>, id: ManagerId)
    requires var sys := Run(limits, Initial, actions);
             && id in sys.managers && sys.managers[id].pc == Escaped
             && AttemptIs(sys.store, sys.managers[id].task, Finished(SUCCEEDED))
             && RunIs(sys.store, sys.managers[id].task, Cancelling)
    ensures var run := Run(limits, Initial, actions).managers[id].task.runId;
            exists k: nat :: LookedInVain(limits, actions, id, run, k) && Cancel(run) in actions[k + 1..]
  {
    hide Run, LookedInVain, AttemptIs;
    var k := LateCancellation(limits, actions, id);
  }
}
