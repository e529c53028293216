/** What a heartbeat is worth: exactly when it renews the lease, and how long it keeps the reaper away. */
module RunLeases {
  import opened Wrappers
  import opened RunDomain
  import opened RunStore
  import opened RunProtocol

  /** The attempt is leased to this runner and has not expired yet. */
  predicate HeldBy(s: Store, a: AttemptId, runner: string, now: int) {
    && a in s.attempts && Leased(s.attempts[a].state) && s.attempts[a].runnerId == runner
    && s.attempts[a].leaseExpires.Some? && now < s.attempts[a].leaseExpires.value
  }

  /** A heartbeat moves the expiry of the runner's own unexpired lease, and nothing else. */
  lemma HeartbeatExactly(limits: Limits, sys: System, a: AttemptId, runner: string, lease: int, now: int)
    ensures var sys' := Apply(limits, sys, Heartbeat(a, runner, lease, now));
            if HeldBy(sys.store, a, runner, now) && lease > 0
            then sys' == sys.(store := sys.store.(attempts :=
                                sys.store.attempts[a := sys.store.attempts[a].(leaseExpires := Some(now + lease))]))
            else sys' == sys
  {
  }

  /** The attempt has not been lost, and while it is leased its lease lasts past `deadline`. */
  predicate SafeUntil(s: Store, a: AttemptId, deadline: int) {
    && a in s.attempts && s.attempts[a].state != Lost
    && (Leased(s.attempts[a].state) ==>
          s.attempts[a].leaseExpires.Some? && s.attempts[a].leaseExpires.value >= deadline)
  }

  /** No sweep looks as far as `deadline`, and no heartbeat of the attempt sets its expiry before it. */
  predicate Respects(x: Action, a: AttemptId, deadline: int) {
    && (x.Sweep? ==> x.cutoff < deadline)
    && (x.Heartbeat? && x.attempt == a ==> x.now + x.leaseSeconds >= deadline)
  }

  lemma StepStaysSafe(s: Store, m: Manager, c: Choice, a: AttemptId, deadline: int)
    requires SafeUntil(s, a, deadline)
    ensures SafeUntil(ManagerStep(s, m, c).0, a, deadline)
  {
    hide DecideRetry, MoveRun;
    WritesKeepAttempts(s, m.task.runId);
  }

  lemma WritesKeepAttempts(s: Store, run: RunId)
    ensures forall t :: MoveRun(s, run, t).Ok? ==> MoveRun(s, run, t).value.attempts == s.attempts
  {
  }

  lemma ActionStaysSafe(limits: Limits, sys: System, x: Action, a: AttemptId, deadline: int)
    requires SafeUntil(sys.store, a, deadline) && Respects(x, a, deadline)
    ensures SafeUntil(Apply(limits, sys, x).store, a, deadline)
  {
    hide ManagerStep, Sweepable;
    if x.Step? && x.id in sys.managers {
      StepStaysSafe(sys.store, sys.managers[x.id], x.choice, a, deadline);
    }
  }

  lemma {:induction false} StaysSafe(limits: Limits, sys: System, actions: seq<Action>, a: AttemptId, deadline: int)
    requires SafeUntil(sys.store, a, deadline) && forall x | x in actions :: Respects(x, a, deadline)
    ensures SafeUntil(Run(limits, sys, actions).store, a, deadline)
    decreases |actions|
  {
    hide Apply, SafeUntil, Respects;
    if actions != [] {
      ActionStaysSafe(limits, sys, actions[0], a, deadline);
      StaysSafe(limits, Apply(limits, sys, actions[0]), actions[1..], a, deadline);
    }
  }

  /**
    A heartbeat in time keeps the attempt from being lost for a whole lease,
    whatever else happens, as long as no sweep looks further ahead.
   */
  lemma HeartbeatProtects(limits: Limits, sys: System, a: AttemptId, runner: string, lease: int, now: int,
                          after: seq<Action>)
    requires HeldBy(sys.store, a, runner, now) && lease > 0
    requires forall x | x in after :: Respects(x, a, now + lease)
    ensures var s := Run(limits, Apply(limits, sys, Heartbeat(a, runner, lease, now)), after).store;
            a in s.attempts && s.attempts[a].state != Lost
  {
    hide Run;
    HeartbeatExactly(limits, sys, a, runner, lease, now);
    StaysSafe(limits, Apply(limits, sys, Heartbeat(a, runner, lease, now)), after, a, now + lease);
  }

  /** Without it the first sweep at or after the expiry loses the attempt and ends its run. */
  lemma ExpiredIsLost(limits: Limits, sys: System, a: AttemptId, cutoff: int)
    requires Inv(sys) && a in sys.store.attempts && Leased(sys.store.attempts[a].state)
    requires sys.store.attempts[a].leaseExpires.Some? && sys.store.attempts[a].leaseExpires.value <= cutoff
    ensures var t, run := Apply(limits, sys, Sweep(cutoff)).store, sys.store.attempts[a].runId;
            && a in t.attempts && t.attempts[a].state == Lost && t.attempts[a].outcome == Some(INFRA_ERROR)
            && run in t.runs && t.runs[run].state.Ended?
            && (sys.store.runs[run].state.Ended? || t.runs[run].state == Ended(INFRA_ERROR))
  {
    hide OneLive;
    var s := sys.store;
    assert AttemptOk(s, a);
    forall x | x in s.attempts && Expired(s.attempts[x], cutoff)
      ensures s.attempts[x].runId in s.runs && s.runs[s.attempts[x].runId].state != Created
    {
      assert AttemptOk(s, x);
    }
    assert HasExpired(s, s.attempts[a].runId, cutoff);
  }

  /** A sweep leaves every other attempt alone, and every run none of whose attempts has expired. */
  lemma UnexpiredIsKept(limits: Limits, sys: System, cutoff: int)
    ensures var t := Apply(limits, sys, Sweep(cutoff)).store;
            && t.attempts.Keys == sys.store.attempts.Keys && t.runs.Keys == sys.store.runs.Keys
            && (forall a | a in t.attempts && !HasRunOut(sys.store, a, cutoff) ::
                  t.attempts[a] == sys.store.attempts[a])
            && (forall r | r in t.runs && t.runs[r] != sys.store.runs[r] ::
                  exists a :: HasRunOut(sys.store, a, cutoff) && sys.store.attempts[a].runId == r)
  {
    hide Sweepable;
    var s, t := sys.store, Apply(limits, sys, Sweep(cutoff)).store;
    forall r | r in t.runs && t.runs[r] != s.runs[r]
      ensures exists a :: HasRunOut(s, a, cutoff) && s.attempts[a].runId == r
    {
      var a :| a in s.attempts && s.attempts[a].runId == r && Expired(s.attempts[a], cutoff);
      assert HasRunOut(s, a, cutoff);
    }
  }

  predicate HasRunOut(s: Store, a: AttemptId, cutoff: int) {
    && a in s.attempts && s.attempts[a].state in {Claimed, Preparing, Executing, Collecting}
    && s.attempts[a].leaseExpires.Some? && s.attempts[a].leaseExpires.value <= cutoff
  }
}
