/**
  Safety of the run protocol: whatever the interleaving, a run has at most one
  live attempt, and the lease reaper always completes.
 */
module RunSafety {
  import opened Wrappers
  import opened RunDomain
  import opened RunStore
  import opened RunProtocol

  // ------------------------------------------------- every action keeps them

  /** Run records may change as long as no run drops out of the claimable states. */
  lemma RunsMoveOn(sys: System, s: Store)
    requires Inv(sys) && s.attempts == sys.store.attempts
    requires forall r | r in sys.store.runs ::
               r in s.runs && (Claimable(sys.store.runs[r].state) ==> Claimable(s.runs[r].state))
    ensures Inv(sys.(store := s))
  {
    var sys' := sys.(store := s);
    forall a | a in s.attempts
      ensures AttemptOk(s, a)
    {
      assert AttemptOk(sys.store, a);
    }
    forall m | m in sys'.managers
      ensures ManagerOk(sys', m)
    {
      assert ManagerOk(sys, m);
    }
    assert forall a, run :: LeasedOn(s, a, run) <==> LeasedOn(sys.store, a, run);
    assert forall m, run :: LiveOn(sys', m, run) <==> LiveOn(sys, m, run);
  }

  lemma MoveKeepsInv(sys: System, run: RunId, target: RunState)
    requires Inv(sys) && !target.RetryWait?
    ensures Inv(sys.(store := Keep(sys.store, MoveRun(sys.store, run, target))))
  {
    hide Inv;
    RunsMoveOn(sys, Keep(sys.store, MoveRun(sys.store, run, target)));
  }

  /** Attempts keep their identity and none becomes leased. */
  predicate AttemptsSettle(s: Store, t: Store) {
    && s.attempts.Keys == t.attempts.Keys
    && forall a | a in s.attempts ::
         && t.attempts[a].id == s.attempts[a].id && t.attempts[a].runId == s.attempts[a].runId
         && !t.attempts[a].state.Pending?
         && (Leased(t.attempts[a].state) ==> Leased(s.attempts[a].state))
  }

  predicate RunsStayClaimable(s: Store, t: Store) {
    && s.runs.Keys == t.runs.Keys
    && forall r | r in s.runs && Claimable(s.runs[r].state) :: Claimable(t.runs[r].state)
  }

  lemma HeartbeatKeepsInv(sys: System, a: AttemptId, runner: string, lease: int, now: int)
    requires Inv(sys)
    ensures Inv(sys.(store := Keep(sys.store, RenewLease(sys.store, a, runner, lease, now))))
  {
    var s := Keep(sys.store, RenewLease(sys.store, a, runner, lease, now));
    AttemptsSettleKeepsInv(sys, s);
  }

  /** An attempt is either unchanged in state, or reaped. */
  predicate OnlyReaped(s: Store, t: Store)
    requires AttemptsSettle(s, t)
  {
    forall a | a in s.attempts ::
      t.attempts[a].state == s.attempts[a].state || (Leased(s.attempts[a].state) && t.attempts[a].state == Lost)
  }

  lemma AttemptsSettleKeepsInv(sys: System, s: Store)
    requires Inv(sys) && AttemptsSettle(sys.store, s) && OnlyReaped(sys.store, s) && RunsStayClaimable(sys.store, s)
    ensures Inv(sys.(store := s))
  {
    var sys' := sys.(store := s);
    forall a | a in s.attempts
      ensures AttemptOk(s, a)
    {
      assert AttemptOk(sys.store, a);
    }
    forall m | m in sys'.managers
      ensures ManagerOk(sys', m)
    {
      assert ManagerOk(sys, m);
    }
    assert forall a, run :: LeasedOn(s, a, run) ==> LeasedOn(sys.store, a, run);
    assert forall m, run :: LiveOn(sys', m, run) <==> LiveOn(sys, m, run);
  }

  lemma SweepKeepsInv(sys: System, cutoff: int)
    requires Inv(sys)
    ensures Sweepable(sys.store, cutoff)
    ensures Inv(sys.(store := ExpireLeases(sys.store, cutoff)))
  {
    var s := sys.store;
    forall a | a in s.attempts
      ensures AttemptOk(s, a)
    {
    }
    AttemptsSettleKeepsInv(sys, ExpireLeases(s, cutoff));
  }

  /** A live manager's own step: it touches only its run and its attempt. */
  predicate OwnChange(s: Store, t: Store, task: Task) {
    && s.attempts.Keys == t.attempts.Keys && s.runs.Keys == t.runs.Keys
    && (forall a | a in s.attempts && a != task.attemptId :: t.attempts[a] == s.attempts[a])
    && (forall r | r in s.runs && r != task.runId :: t.runs[r] == s.runs[r])
  }

  lemma OwnStep(sys: System, id: ManagerId, s: Store, m: Manager)
    requires Inv(sys) && id in sys.managers && Live(sys.managers[id].pc)
    requires m.task == sys.managers[id].task && OwnChange(sys.store, s, m.task)
    requires AttemptsSettle(sys.store, s) && RunsStayClaimable(sys.store, s)
    requires Live(m.pc) ==> Tracks(m.pc, s.attempts[m.task.attemptId].state)
    ensures Inv(sys.(store := s, managers := sys.managers[id := m]))
  {
    var sys' := sys.(store := s, managers := sys.managers[id := m]);
    forall a | a in s.attempts
      ensures AttemptOk(s, a)
    {
      assert AttemptOk(sys.store, a);
    }
    forall n | n in sys'.managers
      ensures ManagerOk(sys', n)
    {
      assert ManagerOk(sys, n) && ManagerOk(sys, id);
      if n != id && Live(sys.managers[n].pc) && sys.managers[n].task.attemptId == m.task.attemptId {
        assert LiveOn(sys, n, m.task.runId) && LiveOn(sys, id, m.task.runId);
      }
    }
    assert forall a, run :: LeasedOn(s, a, run) ==> LeasedOn(sys.store, a, run);
    assert forall n, run :: LiveOn(sys', n, run) ==> LiveOn(sys, n, run);
  }

  /** A manager that is not live takes a step that leaves it not live. */
  lemma IdleStep(sys: System, id: ManagerId, s: Store, m: Manager)
    requires Inv(sys) && s.attempts == sys.store.attempts && RunsStayClaimable(sys.store, s)
    requires !Live(m.pc)
    ensures Inv(sys.(store := s, managers := sys.managers[id := m]))
  {
    RunsMoveOn(sys, s);
    var mid := sys.(store := s);
    var sys' := mid.(managers := sys.managers[id := m]);
    forall n | n in sys'.managers
      ensures ManagerOk(sys', n)
    {
      assert n != id ==> ManagerOk(mid, n);
    }
    assert forall n, run :: LiveOn(sys', n, run) ==> LiveOn(mid, n, run);
  }

  /** Claiming moves a DISPATCHING run to RUNNING, so nothing else was alive on it. */
  lemma BeginKeepsInv(sys: System, id: ManagerId, now: int)
    requires Inv(sys) && id in sys.managers && sys.managers[id].pc.Begin?
    ensures var m := sys.managers[id];
            var r := BeginAttempt(sys.store, m.task.runId, m.task.attemptId, m.runner, m.leaseSeconds, now);
            r.Ok? ==>
              Inv(sys.(store := r.value, managers := sys.managers[id := m.(pc := Prepare, wrote := Some(Running))]))
  {
    var m := sys.managers[id];
    var s := sys.store;
    var run, attempt := m.task.runId, m.task.attemptId;
    var r := BeginAttempt(s, run, attempt, m.runner, m.leaseSeconds, now);
    if r.Ok? {
      var t := r.value;
      var sys' := sys.(store := t, managers := sys.managers[id := m.(pc := Prepare, wrote := Some(Running))]);
      assert s.runs[run].state == Dispatching;
      forall a | a in t.attempts
        ensures AttemptOk(t, a)
      {
        assert a != attempt ==> AttemptOk(s, a);
      }
      forall n | n in sys'.managers
        ensures ManagerOk(sys', n)
      {
        assert ManagerOk(sys, n);
      }
      NothingAlive(sys, run);
      assert forall a, x :: LeasedOn(t, a, x) ==> LeasedOn(s, a, x) || (a == attempt && x == run);
      assert forall n, x :: LiveOn(sys', n, x) ==> LiveOn(sys, n, x) || (n == id && x == run);
    }
  }

  lemma NothingAlive(sys: System, run: RunId)
    requires Inv(sys) && run in sys.store.runs && !Claimable(sys.store.runs[run].state)
    ensures forall a :: !LeasedOn(sys.store, a, run)
    ensures forall n :: !LiveOn(sys, n, run)
  {
    forall a
      ensures !LeasedOn(sys.store, a, run)
    {
      assert a in sys.store.attempts ==> AttemptOk(sys.store, a);
    }
    forall n
      ensures !LiveOn(sys, n, run)
    {
      assert n in sys.managers ==> ManagerOk(sys, n);
    }
  }

  /** The hard step: a run leaves the claimable states only when its one live manager lets go of it. */
  lemma WriteRetryKeepsInv(sys: System, id: ManagerId)
    requires Inv(sys) && id in sys.managers && sys.managers[id].pc.WriteRetry?
    ensures var m := sys.managers[id];
            var r := MoveRun(sys.store, m.task.runId, RetryWait);
            r.Ok? ==>
              Inv(sys.(store := r.value,
                       managers := sys.managers[id := m.(pc := Schedule(m.pc.o), wrote := Some(RetryWait))]))
  {
    var m := sys.managers[id];
    var s := sys.store;
    var run := m.task.runId;
    var r := MoveRun(s, run, RetryWait);
    if r.Ok? {
      var t := r.value;
      var sys' := sys.(store := t,
                       managers := sys.managers[id := m.(pc := Schedule(m.pc.o), wrote := Some(RetryWait))]);
      assert ManagerOk(sys, id) && LiveOn(sys, id, run);
      forall a | a in t.attempts
        ensures AttemptOk(t, a)
      {
        assert AttemptOk(s, a);
        assert LeasedOn(s, a, run) ==> a == m.task.attemptId;
      }
      forall n | n in sys'.managers
        ensures ManagerOk(sys', n)
      {
        assert ManagerOk(sys, n);
        assert LiveOn(sys, n, run) ==> n == id;
      }
      assert forall a, x :: LeasedOn(t, a, x) <==> LeasedOn(s, a, x);
      assert forall n, x :: LiveOn(sys', n, x) ==> LiveOn(sys, n, x);
    }
  }

  lemma StepKeepsInv(sys: System, id: ManagerId, c: Choice)
    requires Inv(sys) && id in sys.managers
    ensures var (s, m) := ManagerStep(sys.store, sys.managers[id], c);
            Inv(sys.(store := s, managers := sys.managers[id := m]))
  {
    var m0 := sys.managers[id];
    var (s, m) := ManagerStep(sys.store, m0, c);
    if m0.pc.Begin? && m.pc.Prepare? {
      BeginKeepsInv(sys, id, c.now);
    } else if m0.pc.WriteRetry? && m.pc.Schedule? {
      WriteRetryKeepsInv(sys, id);
    } else if Live(m0.pc) {
      LiveStepIsOwn(sys, id, c);
      hide ManagerStep, Inv;
      OwnStep(sys, id, s, m);
    } else {
      hide Inv;
      IdleStep(sys, id, s, m);
    }
  }

  predicate Settles(s: Store, t: Store, task: Task) {
    OwnChange(s, t, task) && AttemptsSettle(s, t) && RunsStayClaimable(s, t)
  }

  lemma WritesSettle(s: Store, task: Task)
    requires forall a | a in s.attempts :: AttemptOk(s, a)
    ensures Settles(s, s, task)
    ensures forall t | t in {Preparing, Executing, Collecting} :: var r := MoveAttempt(s, task.attemptId, t);
              r.Ok? ==>
                Settles(s, r.value,
                        task) && task.attemptId in r.value.attempts && r.value.attempts[task.attemptId].state == t
    ensures forall o ::
              var r := CompleteAttempt(s, task.attemptId, Finished(o), ResultEnvelope(task.runId, task.attemptId, o));
              r.Ok? ==> (&& Settles(s, r.value, task) && task.attemptId in r.value.attempts
                         && r.value.attempts[task.attemptId].state == Finished(o))
    ensures forall t: RunState | t.Cancelling? || t.Ended? :: var r := MoveRun(s, task.runId, t);
              r.Ok? ==> Settles(s, r.value, task) && r.value.attempts == s.attempts
  {
  }

  /** When a live manager cannot move its attempt on, the attempt has been lost. */
  lemma RefusedMeansLost(s: Store, pc: Pc, task: Task)
    requires task.attemptId in s.attempts && s.attempts[task.attemptId].id == task.attemptId
    requires s.attempts[task.attemptId].runId == task.runId && Tracks(pc, s.attempts[task.attemptId].state)
    ensures pc.Collect? && MoveAttempt(s, task.attemptId, Collecting).Err? ==> s.attempts[task.attemptId].state == Lost
    ensures pc.Complete? ==>
              var envelope := ResultEnvelope(task.runId, task.attemptId, pc.o);
              CompleteAttempt(s, task.attemptId, Finished(pc.o), envelope).Err? ==>
                s.attempts[task.attemptId].state == Lost
  {
  }

  lemma LiveStepIsOwn(sys: System, id: ManagerId, c: Choice)
    requires Inv(sys) && id in sys.managers && Live(sys.managers[id].pc)
    ensures var (s, m) := ManagerStep(sys.store, sys.managers[id], c);
            && m.task == sys.managers[id].task
            && (m.pc.Schedule? || Settles(sys.store, s, m.task))
            && (Live(m.pc) ==> m.task.attemptId in s.attempts && Tracks(m.pc, s.attempts[m.task.attemptId].state))
  {
    hide Settles, MoveAttempt, MoveRun, CompleteAttempt, DecideRetry, OneLive;
    var m := sys.managers[id];
    LiveFacts(sys, id);
    WritesSettle(sys.store, m.task);
    RefusedMeansLost(sys.store, m.pc, m.task);
    hide Inv, AttemptOk;
  }

  lemma LiveFacts(sys: System, id: ManagerId)
    requires Inv(sys) && id in sys.managers && Live(sys.managers[id].pc)
    ensures var m := sys.managers[id];
            && m.task.attemptId in sys.store.attempts && sys.store.attempts[m.task.attemptId].id == m.task.attemptId
            && sys.store.attempts[m.task.attemptId].runId == m.task.runId
            && Tracks(m.pc, sys.store.attempts[m.task.attemptId].state)
            && m.task.runId in sys.store.runs && Claimable(sys.store.runs[m.task.runId].state)
  {
    assert ManagerOk(sys, id);
    assert AttemptOk(sys.store, sys.managers[id].task.attemptId);
  }

  lemma ApplyKeepsInv(limits: Limits, sys: System, a: Action)
    requires Inv(sys)
    ensures Inv(Apply(limits, sys, a))
  {
    hide Inv, ManagerStep, MoveRun, RenewLease, ExpireLeases;
    match a
    case CreateRunAction(run, engine) => CreateKeepsInv(sys, run, engine);
    case Queue(run) => MoveKeepsInv(sys, run, Queued);
    case Dispatch(run) => MoveKeepsInv(sys, run, Dispatching);
    case Converge(run) => MoveKeepsInv(sys, run, Ended(INFRA_ERROR));
    case Cancel(run) => MoveKeepsInv(sys, run, Cancelling);
    case Heartbeat(attempt, runner, lease, now) => HeartbeatKeepsInv(sys, attempt, runner, lease, now);
    case Sweep(cutoff) => SweepKeepsInv(sys, cutoff);
    case Spawn(id, task, runner, lease, hasScheduler) =>
      IdleStep(sys, id, sys.store, Manager(task, runner, lease, hasScheduler, ReadRun, None));
    case Step(id, choice) => if id in sys.managers { StepKeepsInv(sys, id, choice); }
    case Crash(id) => if id in sys.managers { IdleStep(sys, id, sys.store, sys.managers[id].(pc := Crashed)); }
  }

  lemma CreateKeepsInv(sys: System, run: RunId, engine: Engine)
    requires Inv(sys)
    ensures run !in sys.store.runs ==> Inv(sys.(store := CreateRun(sys.store, run, engine)))
  {
    hide Inv;
    if run !in sys.store.runs {
      RunsMoveOn(sys, CreateRun(sys.store, run, engine));
    }
  }

  lemma {:induction false} RunKeepsInv(limits: Limits, sys: System, actions: seq<Action>)
    requires Inv(sys)
    ensures Inv(Run(limits, sys, actions))
    decreases |actions|
  {
    hide Inv, Apply;
    if actions != [] {
      ApplyKeepsInv(limits, sys, actions[0]);
      RunKeepsInv(limits, Apply(limits, sys, actions[0]), actions[1..]);
    }
  }
}
