/**
  Runner managers, dispatchers, cancellation, retries, heartbeats and the lease
  reaper as one transition system. Every repository call is atomic; anything
  may happen between two calls.
 */
module RunProtocol {
  import opened Wrappers
  import opened RunDomain
  import opened RunStore

  type ManagerId = nat

  /** How `execute` ended when it returned. */
  datatype End =
    | LeaseLost
    | RetryScheduled(o: ResultOutcome)
    | RetryAbandoned(o: ResultOutcome)
    | Recorded(o: ResultOutcome)

  /** The next repository call of a manager inside `execute`. */
  datatype Pc =
    | ReadRun | Begin | Prepare | Launch
    | Execute
    | ReadCancel(o: ResultOutcome)
    | ReadLost(o: ResultOutcome)
    | Collect(o: ResultOutcome)
    | Complete(o: ResultOutcome)
    | Recheck
    | Decide(o: ResultOutcome)
    | GiveUp(o: ResultOutcome)
    | WriteRetry(o: ResultOutcome)
    | Schedule(o: ResultOutcome)
    | ScheduleFailed(o: ResultOutcome)
    | ReadCancelling
    | EnterCancelling
    | WriteFinal(o: ResultOutcome)
    | Returned(end: End)
    | Refused
    | Escaped
    | Crashed

  /** `wrote` is the last run state this manager wrote. */
  datatype Manager = Manager(task: Task, runner: string, leaseSeconds: int, hasScheduler: bool, pc: Pc,
                             wrote: Option<RunState>)

  datatype System = System(store: Store, managers: map<ManagerId, Manager>, sweepRaised: bool)

  /** What the environment decides when a manager takes a step. */
  datatype Choice = Choice(now: int, outcome: ResultOutcome, schedulerFails: bool)

  datatype Action =
    | CreateRunAction(run: RunId, engine: Engine)
    | Queue(run: RunId)
    | Dispatch(run: RunId)
    | Converge(run: RunId)
    | Cancel(run: RunId)
    | Heartbeat(attempt: AttemptId, runner: string, leaseSeconds: int, now: int)
    | Sweep(cutoff: int)
    | Spawn(id: ManagerId, task: Task, runner: string, leaseSeconds: int, hasScheduler: bool)
    | Step(id: ManagerId, choice: Choice)
    | Crash(id: ManagerId)

  function Keep(s: Store, r: Result<Store, Error>): Store {
    if r.Ok? then r.value else s
  }

  /** A repository write by a manager: on success go to `next`, otherwise to `failed`. */
  function Attempted(s: Store, m: Manager, r: Result<Store, Error>, next: Pc, failed: Pc): (Store, Manager) {
    if r.Ok? then (r.value, m.(pc := next)) else (s, m.(pc := failed))
  }

  function WroteRun(s: Store, m: Manager, target: RunState, next: Pc): (Store, Manager) {
    var r := MoveRun(s, m.task.runId, target);
    if r.Ok? then (r.value, m.(pc := next, wrote := Some(target))) else (s, m.(pc := Escaped))
  }

  /** One step of `execute`. */
  function ManagerStep(s: Store, m: Manager, c: Choice): (Store, Manager) {
    var run, attempt := m.task.runId, m.task.attemptId;
    match m.pc
    case ReadRun =>
      if run !in s.runs || s.runs[run].engine != m.task.engine || s.runs[run].state != Dispatching
      then (s, m.(pc := Refused)) else (s, m.(pc := Begin))
    case Begin =>
      var r := BeginAttempt(s, run, attempt, m.runner, m.leaseSeconds, c.now);
      if r.Ok? then (r.value, m.(pc := Prepare, wrote := Some(Running))) else (s, m.(pc := Refused))
    case Prepare => Attempted(s, m, MoveAttempt(s, attempt, Preparing), Launch, Escaped)
    case Launch => Attempted(s, m, MoveAttempt(s, attempt, Executing), Execute, Escaped)
    case Execute => (s, m.(pc := ReadCancel(c.outcome)))
    case ReadCancel(o) =>
      if o != SUCCEEDED then (s, m.(pc := ReadLost(o)))
      else if run !in s.runs then (s, m.(pc := Escaped))
      else (s, m.(pc := ReadLost(if s.runs[run].state == Cancelling then CANCELLED else SUCCEEDED)))
    case ReadLost(o) =>
      if attempt !in s.attempts then (s, m.(pc := Escaped))
      else if s.attempts[attempt].state == Lost then (s, m.(pc := Returned(LeaseLost)))
      else (s, m.(pc := Collect(o)))
    case Collect(o) => Attempted(s, m, MoveAttempt(s, attempt, Collecting), Complete(o), Recheck)
    case Complete(o) =>
      Attempted(s, m, CompleteAttempt(s, attempt, Finished(o), ResultEnvelope(run, attempt, o)), Decide(o), Recheck)
    case Recheck =>
      if attempt in s.attempts && s.attempts[attempt].state == Lost then (s, m.(pc := Returned(LeaseLost)))
      else (s, m.(pc := Escaped))
    case Decide(o) =>
      if DecideRetry(m.task, o, |AttemptsOf(s, run)|).Retry?
      then (s, m.(pc := if m.hasScheduler then WriteRetry(o) else GiveUp(o)))
      else (s, m.(pc := if o == CANCELLED then ReadCancelling else WriteFinal(o)))
    case GiveUp(o) => WroteRun(s, m, Ended(INFRA_ERROR), Returned(RetryAbandoned(o)))
    case WriteRetry(o) => WroteRun(s, m, RetryWait, Schedule(o))
    case Schedule(o) => (s, m.(pc := if c.schedulerFails then ScheduleFailed(o) else Returned(RetryScheduled(o))))
    case ScheduleFailed(o) => WroteRun(s, m, Ended(INFRA_ERROR), Returned(RetryAbandoned(o)))
    case ReadCancelling =>
      if run !in s.runs then (s, m.(pc := Escaped))
      else (s, m.(pc := if s.runs[run].state == Cancelling then WriteFinal(CANCELLED) else EnterCancelling))
    case EnterCancelling => WroteRun(s, m, Cancelling, WriteFinal(CANCELLED))
    case WriteFinal(o) => WroteRun(s, m, Ended(o), Returned(Recorded(o)))
    case _ => (s, m)
  }

  /** All tasks of one run carry the same retry limit. */
  type Limits = RunId -> nat

  function Apply(limits: Limits, sys: System, a: Action): System {
    var s := sys.store;
    match a
    case CreateRunAction(run, engine) => if run in s.runs then sys else sys.(store := CreateRun(s, run, engine))
    case Queue(run) => sys.(store := Keep(s, MoveRun(s, run, Queued)))
    case Dispatch(run) => sys.(store := Keep(s, MoveRun(s, run, Dispatching)))
    case Converge(run) => sys.(store := Keep(s, MoveRun(s, run, Ended(INFRA_ERROR))))
    case Cancel(run) => sys.(store := Keep(s, CancelRun(s, run)))
    case Heartbeat(attempt, runner, lease, now) => sys.(store := Keep(s, RenewLease(s, attempt, runner, lease, now)))
    case Sweep(cutoff) => if Sweepable(s, cutoff) then sys.(store := ExpireLeases(s, cutoff))
                          else sys.(sweepRaised := true)
    case Spawn(id, task, runner, lease, hasScheduler) =>
      if id in sys.managers || !ValidPolicy(task.policy) || task.policy.maxAttempts != limits(task.runId) then sys
      else sys.(managers := sys.managers[id := Manager(task, runner, lease, hasScheduler, ReadRun, None)])
    case Step(id, choice) =>
      if id !in sys.managers then sys
      else
        var (s', m') := ManagerStep(s, sys.managers[id], choice);
        sys.(store := s', managers := sys.managers[id := m'])
    case Crash(id) =>
      if id !in sys.managers then sys
      else sys.(managers := sys.managers[id := sys.managers[id].(pc := Crashed)])
  }

  const Initial := System(Store(map[], map[]), map[], false)

  function Run(limits: Limits, sys: System, actions: seq<Action>): System
    decreases |actions|
  {
    if actions == [] then sys else Run(limits, Apply(limits, sys, actions[0]), actions[1..])
  }

  // --------------------------------------------------------------- invariants

  /** The run states in which an attempt may be alive. */
  predicate Claimable(s: RunState) {
    s.Running? || s.Cancelling? || s.Ended?
  }

  /** The manager has begun its attempt and has not made its decisive run write yet. */
  predicate Live(pc: Pc) {
    || pc.Prepare? || pc.Launch? || pc.Execute? || pc.ReadCancel? || pc.ReadLost?
    || pc.Collect? || pc.Complete? || pc.Recheck?
    || pc.Decide? || pc.GiveUp? || pc.WriteRetry? || pc.ReadCancelling? || pc.EnterCancelling? || pc.WriteFinal?
  }

  /** What a live manager knows about its attempt, the reaper permitting. */
  predicate Tracks(pc: Pc, s: AttemptState) {
    match pc
    case Prepare => s.Claimed? || s.Lost?
    case Launch => s.Preparing? || s.Lost?
    case Execute => s.Executing? || s.Lost?
    case ReadCancel(_) => s.Executing? || s.Lost?
    case ReadLost(_) => s.Executing? || s.Lost?
    case Collect(_) => s.Executing? || s.Lost?
    case Complete(_) => s.Collecting? || s.Lost?
    case Recheck => s.Lost?
    case Decide(o) => s == Finished(o)
    case GiveUp(o) => s == Finished(o)
    case WriteRetry(o) => s == Finished(o)
    case ReadCancelling => s == Finished(CANCELLED)
    case EnterCancelling => s == Finished(CANCELLED)
    case WriteFinal(o) => s == Finished(o)
    case _ => true
  }

  predicate AttemptOk(s: Store, a: AttemptId) {
    && a in s.attempts && s.attempts[a].id == a && !s.attempts[a].state.Pending?
    && s.attempts[a].runId in s.runs
    && (Leased(s.attempts[a].state) ==> Claimable(s.runs[s.attempts[a].runId].state))
  }

  predicate LeasedOn(s: Store, a: AttemptId, run: RunId) {
    a in s.attempts && Leased(s.attempts[a].state) && s.attempts[a].runId == run
  }

  predicate LiveOn(sys: System, m: ManagerId, run: RunId) {
    m in sys.managers && Live(sys.managers[m].pc) && sys.managers[m].task.runId == run
  }

  predicate ManagerOk(sys: System, m: ManagerId) {
    m in sys.managers && (Live(sys.managers[m].pc) ==>
      var task := sys.managers[m].task;
      && task.attemptId in sys.store.attempts && sys.store.attempts[task.attemptId].runId == task.runId
      && task.runId in sys.store.runs && Claimable(sys.store.runs[task.runId].state)
      && Tracks(sys.managers[m].pc, sys.store.attempts[task.attemptId].state))
  }

  /** At most one attempt of a run is leased, at most one manager is live on it, and they belong together. */
  ghost predicate OneLive(sys: System) {
    && (forall run, a, b | LeasedOn(sys.store, a, run) && LeasedOn(sys.store, b, run) :: a == b)
    && (forall run, m, a | LiveOn(sys, m, run) && LeasedOn(sys.store, a, run) :: sys.managers[m].task.attemptId == a)
    && (forall run, m, n | LiveOn(sys, m, run) && LiveOn(sys, n, run) :: m == n)
  }

  ghost predicate Inv(sys: System) {
    && (forall a | a in sys.store.attempts :: AttemptOk(sys.store, a))
    && (forall m | m in sys.managers :: ManagerOk(sys, m))
    && OneLive(sys)
    && !sys.sweepRaised
  }
}
