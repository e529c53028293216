/**
  How long a run can live, and the protocol's main results over every run of
  the system.
 */
module RunBounds {
  import opened Wrappers
  import opened RunDomain
  import opened RunStore
  import opened RunProtocol
  import opened RunSafety
  import opened RunHistory

  // ------------------------------------------------------------ bounded life

  /** The version a record must carry after `k` begun attempts out of `limit`. */
  predicate VersionOk(limit: nat, r: RunRecord, k: nat) {
    && k <= limit
    && match r.state
       case Created => r.version == 0 && k == 0
       case Queued => r.version == 4 * k + 1 && k < limit
       case Dispatching => r.version == 4 * k + 2 && k < limit
       case Running => r.version == 4 * k - 1 && k >= 1
       case RetryWait => r.version == 4 * k && 1 <= k < limit
       case Cancelling => r.version <= 4 * k + if k < limit then 3 else 0
       case Ended(_) => r.version <= 4 * k + if k < limit then 4 else 1
  }

  /** A run moves on without a new attempt. */
  lemma VersionMoves(limit: nat, x: RunRecord, y: RunRecord, k: nat)
    requires limit >= 1 && VersionOk(limit, x, k) && RunEvolves(x, y)
    requires y.state == Running ==> x == y
    requires y.state == RetryWait ==> x == y || k < limit
    ensures VersionOk(limit, y, k)
  {
  }

  predicate PolicyOk(limits: Limits, s: Store, m: Manager) {
    && m.task.policy.maxAttempts == limits(m.task.runId)
    && (m.pc.WriteRetry? ==> |AttemptsOf(s, m.task.runId)| < limits(m.task.runId))
  }

  ghost predicate Bounded(limits: Limits, sys: System) {
    && (forall r | r in sys.store.runs :: VersionOk(limits(r), sys.store.runs[r], |AttemptsOf(sys.store, r)|))
    && (forall m | m in sys.managers :: PolicyOk(limits, sys.store, sys.managers[m]))
  }

  predicate SameAttempts(s: Store, t: Store) {
    s.attempts.Keys == t.attempts.Keys && forall a | a in s.attempts :: t.attempts[a].runId == s.attempts[a].runId
  }

  lemma SameAttemptSets(s: Store, t: Store, run: RunId)
    requires SameAttempts(s, t)
    ensures AttemptsOf(s, run) == AttemptsOf(t, run)
  {
  }

  /** No action but a manager's claim adds an attempt or makes a run RUNNING; only a manager sends it to RETRY_WAIT. */
  lemma EnvironmentAddsNothing(limits: Limits, sys: System, a: Action)
    requires !a.Step?
    ensures SameAttempts(sys.store, Apply(limits, sys, a).store)
    ensures forall r | r in Apply(limits, sys, a).store.runs :: var y := Apply(limits, sys, a).store.runs[r];
              if r in sys.store.runs then (y.state in {Running, RetryWait} ==> y == sys.store.runs[r])
              else y.state == Created && y.version == 0
  {
    hide ManagerStep;
  }

  lemma EnvironmentKeepsBounds(limits: Limits, sys: System, a: Action)
    requires Inv(sys) && Bounded(limits, sys) && !a.Step? && forall r :: limits(r) >= 1
    ensures Bounded(limits, Apply(limits, sys, a))
  {
    hide OneLive;
    var sys' := Apply(limits, sys, a);
    EnvironmentAddsNothing(limits, sys, a);
    ApplyEvolves(limits, sys, a);
    forall r | r in sys'.store.runs
      ensures VersionOk(limits(r), sys'.store.runs[r], |AttemptsOf(sys'.store, r)|)
    {
      hide Apply;
      SameAttemptSets(sys.store, sys'.store, r);
      if r in sys.store.runs {
        VersionMoves(limits(r), sys.store.runs[r], sys'.store.runs[r], |AttemptsOf(sys.store, r)|);
      } else {
        NoAttemptsYet(sys, r);
      }
    }
    forall m | m in sys'.managers
      ensures PolicyOk(limits, sys'.store, sys'.managers[m])
    {
      SameAttemptSets(sys.store, sys'.store, sys'.managers[m].task.runId);
    }
  }

  lemma NoAttemptsYet(sys: System, r: RunId)
    requires Inv(sys) && r !in sys.store.runs
    ensures AttemptsOf(sys.store, r) == {}
  {
    forall a | a in sys.store.attempts
      ensures sys.store.attempts[a].runId != r
    {
      assert AttemptOk(sys.store, a);
    }
  }

  /** A claim adds exactly one attempt and starts its run. */
  predicate Claims(s: Store, t: Store, task: Task) {
    && task.attemptId !in s.attempts && task.attemptId in t.attempts
    && t.attempts.Keys == s.attempts.Keys + {task.attemptId}
    && t.attempts[task.attemptId].runId == task.runId
    && (forall a | a in s.attempts :: t.attempts[a] == s.attempts[a])
    && task.runId in s.runs && s.runs[task.runId].state == Dispatching
    && t.runs == s.runs[task.runId := RunRecord(s.runs[task.runId].engine, Running, s.runs[task.runId].version + 1)]
  }

  lemma BeginClaims(s: Store, m: Manager, c: Choice)
    requires m.pc.Begin?
    ensures var (t, n) := ManagerStep(s, m, c);
            && n.task == m.task && !n.pc.WriteRetry?
            && (if n.pc.Prepare? then Claims(s, t, m.task) else t == s)
  {
  }

  /** Any other step adds no attempt, starts no run, and sends a run to RETRY_WAIT only from WriteRetry. */
  predicate Carries(s: Store, t: Store, m: Manager) {
    && SameAttempts(s, t) && t.runs.Keys == s.runs.Keys
    && forall r | r in s.runs ::
         && (r != m.task.runId || t.runs[r].state == Running ==> t.runs[r] == s.runs[r])
         && (t.runs[r].state == RetryWait ==> m.pc.WriteRetry? || t.runs[r] == s.runs[r])
  }

  lemma OtherStepsCarry(s: Store, m: Manager, c: Choice)
    requires !m.pc.Begin?
    ensures var (t, n) := ManagerStep(s, m, c);
            n.task == m.task && Carries(s, t, m)
    ensures var (t, n) := ManagerStep(s, m, c);
            n.pc.WriteRetry? ==> m.pc.WriteRetry? || |AttemptsOf(s, m.task.runId)| < m.task.policy.maxAttempts
  {
    hide AttemptsOf, MoveRun, MoveAttempt, CompleteAttempt, Carries;
    WritesCarry(s, m);
  }

  lemma WritesCarry(s: Store, m: Manager)
    ensures Carries(s, s, m)
    ensures forall t :: MoveRun(s, m.task.runId, t).Ok? && t != Running && (t == RetryWait ==> m.pc.WriteRetry?) ==>
              Carries(s, MoveRun(s, m.task.runId, t).value, m)
    ensures forall t :: MoveAttempt(s, m.task.attemptId, t).Ok? ==>
              Carries(s, MoveAttempt(s, m.task.attemptId, t).value, m)
    ensures forall o ::
              var r := CompleteAttempt(s, m.task.attemptId, Finished(o),
                                       ResultEnvelope(m.task.runId, m.task.attemptId, o));
              r.Ok? ==> Carries(s, r.value, m)
  {
  }

  lemma ClaimAddsOne(s: Store, t: Store, attempt: AttemptId, run: RunId)
    requires attempt !in s.attempts && attempt in t.attempts && t.attempts[attempt].runId == run
    requires t.attempts.Keys == s.attempts.Keys + {attempt} && forall a | a in s.attempts ::
               t.attempts[a] == s.attempts[a]
    ensures |AttemptsOf(t, run)| == |AttemptsOf(s, run)| + 1
    ensures forall r | r != run :: AttemptsOf(t, r) == AttemptsOf(s, r)
  {
    assert AttemptsOf(t, run) == AttemptsOf(s, run) + {attempt};
  }

  lemma ClaimKeepsBounds(limits: Limits, sys: System, id: ManagerId, t: Store, n: Manager)
    requires Inv(sys) && Bounded(limits, sys) && id in sys.managers
    requires n.task == sys.managers[id].task && !n.pc.WriteRetry? && Claims(sys.store, t, n.task)
    ensures Bounded(limits, sys.(store := t, managers := sys.managers[id := n]))
  {
    hide Inv, AttemptsOf;
    var s, run := sys.store, n.task.runId;
    ClaimAddsOne(s, t, n.task.attemptId, run);
    NothingAlive(sys, run);
    assert PolicyOk(limits, s, sys.managers[id]);
    forall x | x in sys.managers && x != id
      ensures PolicyOk(limits, t, sys.managers[x])
    {
      assert PolicyOk(limits, s, sys.managers[x]);
      assert !LiveOn(sys, x, run);
    }
    assert VersionOk(limits(run), s.runs[run], |AttemptsOf(s, run)|);
  }

  lemma CarryKeepsBounds(limits: Limits, sys: System, id: ManagerId, t: Store, n: Manager)
    requires Bounded(limits, sys) && id in sys.managers && forall r :: limits(r) >= 1
    requires n.task == sys.managers[id].task && Carries(sys.store, t, sys.managers[id]) && Evolves(sys.store, t)
    requires n.pc.WriteRetry? ==>
               sys.managers[id].pc.WriteRetry? || |AttemptsOf(sys.store, n.task.runId)| < n.task.policy.maxAttempts
    ensures Bounded(limits, sys.(store := t, managers := sys.managers[id := n]))
  {
    hide AttemptsOf;
    var s, m := sys.store, sys.managers[id];
    forall r
      ensures AttemptsOf(t, r) == AttemptsOf(s, r)
    {
      SameAttemptSets(s, t, r);
    }
    assert PolicyOk(limits, s, m);
    forall r | r in t.runs
      ensures VersionOk(limits(r), t.runs[r], |AttemptsOf(t, r)|)
    {
      VersionMoves(limits(r), s.runs[r], t.runs[r], |AttemptsOf(s, r)|);
    }
  }

  lemma StepKeepsBounds(limits: Limits, sys: System, id: ManagerId, c: Choice)
    requires Inv(sys) && Bounded(limits, sys) && id in sys.managers && forall r :: limits(r) >= 1
    ensures var (t, n) := ManagerStep(sys.store, sys.managers[id], c);
            Bounded(limits, sys.(store := t, managers := sys.managers[id := n]))
  {
    hide ManagerStep, Inv, Bounded, Claims, Carries, Evolves;
    var m := sys.managers[id];
    var (t, n) := ManagerStep(sys.store, m, c);
    StepEvolves(sys.store, m, c);
    if m.pc.Begin? {
      BeginClaims(sys.store, m, c);
      if n.pc.Prepare? {
        ClaimKeepsBounds(limits, sys, id, t, n);
      } else {
        NothingCarries(sys.store, m);
        CarryKeepsBounds(limits, sys, id, t, n);
      }
    } else {
      OtherStepsCarry(sys.store, m, c);
      CarryKeepsBounds(limits, sys, id, t, n);
    }
  }

  lemma NothingCarries(s: Store, m: Manager)
    ensures Carries(s, s, m)
  {
  }

  lemma {:induction false} RunKeepsBounds(limits: Limits, sys: System, actions: seq<Action>)
    requires Inv(sys) && Bounded(limits, sys) && forall r :: limits(r) >= 1
    ensures Bounded(limits, Run(limits, sys, actions))
    decreases |actions|
  {
    hide Inv, Bounded, ManagerStep;
    if actions != [] {
      var a := actions[0];
      ApplyKeepsInv(limits, sys, a);
      if a.Step? {
        if a.id in sys.managers {
          StepKeepsBounds(limits, sys, a.id, a.choice);
        }
      } else {
        EnvironmentKeepsBounds(limits, sys, a);
      }
      RunKeepsBounds(limits, Apply(limits, sys, a), actions[1..]);
    }
  }

  // ------------------------------------------------------------ main results

  /** Under every interleaving a run has at most one leased attempt, and only a run in a claimable state has one. */
  lemma OneLiveAttempt(limits: Limits, actions: seq<Action>, run: RunId)
    ensures var s := Run(limits, Initial, actions).store;
            && (forall a, b | LeasedOn(s, a, run) && LeasedOn(s, b, run) :: a == b)
            && (forall a | LeasedOn(s, a, run) :: run in s.runs && Claimable(s.runs[run].state))
  {
    RunKeepsInv(limits, Initial, actions);
    var sys := Run(limits, Initial, actions);
    forall a | LeasedOn(sys.store, a, run)
      ensures run in sys.store.runs && Claimable(sys.store.runs[run].state)
    {
      assert AttemptOk(sys.store, a);
    }
  }

  /** In every reachable state a sweep completes and leaves no expired lease behind. */
  lemma SweepAlwaysCompletes(limits: Limits, actions: seq<Action>, cutoff: int)
    ensures var sys := Run(limits, Initial, actions);
            && !sys.sweepRaised && Sweepable(sys.store, cutoff)
            && var t := Apply(limits, sys, Sweep(cutoff)).store;
               forall a | a in t.attempts && Leased(t.attempts[a].state) && t.attempts[a].leaseExpires.Some? ::
                        t.attempts[a].leaseExpires.value > cutoff
  {
    RunKeepsInv(limits, Initial, actions);
    var sys := Run(limits, Initial, actions);
    SweepKeepsInv(sys, cutoff);
    SweepLeavesNoExpiredLease(sys.store, cutoff);
  }

  /** A lost attempt stays lost and its run stays ended, whatever late heartbeats and results arrive. */
  lemma LostStaysLost(limits: Limits, before: seq<Action>, after: seq<Action>, a: AttemptId)
    requires var s := Run(limits, Initial, before).store; a in s.attempts && s.attempts[a].state == Lost
    ensures var s, t := Run(limits, Initial, before).store, Run(limits, Run(limits, Initial, before), after).store;
            && a in t.attempts && t.attempts[a] == s.attempts[a]
            && var run := s.attempts[a].runId;
               run in s.runs && run in t.runs && t.runs[run] == s.runs[run] && t.runs[run].state.Ended?
  {
    RunKeepsOutcomes(limits, Initial, before);
    TerminalIsForever(limits, Run(limits, Initial, before), after);
  }

  /** What a manager that has left `execute`, by returning or by an escaping error, leaves behind. */
  lemma ManagerOutcome(limits: Limits, actions: seq<Action>, id: ManagerId)
    requires var sys := Run(limits, Initial, actions);
             id in sys.managers && (sys.managers[id].pc.Returned? || sys.managers[id].pc.Escaped?)
    ensures var sys := Run(limits, Initial, actions);
            var m := sys.managers[id];
            && m.task.attemptId in sys.store.attempts
            && var state := sys.store.attempts[m.task.attemptId].state;
               && AttemptTerminal(state)
               && if m.pc.Escaped? then HasStopped(sys.store, m.task.runId)
                  else
                    match m.pc.end
                    case LeaseLost => state == Lost && HasEnded(sys.store, m.task.runId) && m.wrote == Some(Running)
                    case RetryScheduled(o) => state == Finished(o) && Retryable(m.task, o) && m.wrote == Some(RetryWait)
                    case RetryAbandoned(o) =>
                      state == Finished(o) && Retryable(m.task, o) && m.wrote == Some(RunState.Ended(INFRA_ERROR))
                    case Recorded(o) => state == Finished(o) && m.wrote == Some(RunState.Ended(o))
  {
    RunKeepsOutcomes(limits, Initial, actions);
    var sys := Run(limits, Initial, actions);
    assert EndOk(sys.store, sys.managers[id]);
  }

  /** Attempts and state changes are bounded, and a waiting or running run's attempts determine its version. */
  lemma BoundedLife(limits: Limits, actions: seq<Action>, run: RunId)
    requires forall r :: limits(r) >= 1
    requires run in Run(limits, Initial, actions).store.runs
    ensures var s := Run(limits, Initial, actions).store;
            var k, v := |AttemptsOf(s, run)|, s.runs[run].version;
            && k <= limits(run) && v <= 4 * limits(run) + 1
            && (s.runs[run].state == Queued ==> v == 4 * k + 1)
            && (s.runs[run].state == Dispatching ==> v == 4 * k + 2)
            && (s.runs[run].state == Running ==> v == 4 * k - 1)
            && (s.runs[run].state == RetryWait ==> v == 4 * k)
  {
    RunKeepsBounds(limits, Initial, actions);
    var s := Run(limits, Initial, actions).store;
    assert VersionOk(limits(run), s.runs[run], |AttemptsOf(s, run)|);
  }
}
