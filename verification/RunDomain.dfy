/**
  Run and attempt records, their transition tables, and the retry decision.
 */
module RunDomain {
  import opened Wrappers

  type RunId = nat
  type AttemptId = nat

  datatype Engine = HTTP | PYTEST | PLAYWRIGHT
  datatype ResultOutcome = SUCCEEDED | FAILED | CANCELLED | TIMED_OUT | INFRA_ERROR

  datatype RunState =
    | Created | Queued | Dispatching | Running | RetryWait | Cancelling
    | Ended(outcome: ResultOutcome)

  datatype AttemptState =
    | Pending | Claimed | Preparing | Executing | Collecting
    | Finished(outcome: ResultOutcome) | Lost

  predicate RunTerminal(s: RunState) { s.Ended? }
  predicate AttemptTerminal(s: AttemptState) { s.Finished? || s.Lost? }
  predicate Leased(s: AttemptState) { s.Claimed? || s.Preparing? || s.Executing? || s.Collecting? }

  predicate RunMay(current: RunState, target: RunState) {
    match current
    case Created => target in {Queued, Cancelling}
    case Queued => target in {Dispatching, Cancelling, Ended(FAILED), Ended(TIMED_OUT), Ended(INFRA_ERROR)}
    case Dispatching => target in {Running, Cancelling, Ended(FAILED), Ended(TIMED_OUT), Ended(INFRA_ERROR)}
    case Running => target in {Cancelling, Ended(SUCCEEDED), Ended(FAILED), Ended(TIMED_OUT), Ended(INFRA_ERROR),
                               RetryWait}
    case RetryWait => target in {Queued, Cancelling, Ended(INFRA_ERROR)}
    case Cancelling => target in {Ended(CANCELLED), Ended(FAILED), Ended(TIMED_OUT), Ended(INFRA_ERROR)}
    case Ended(_) => false
  }

  predicate AttemptMay(current: AttemptState, target: AttemptState) {
    match current
    case Pending => target in {Claimed, Finished(CANCELLED)}
    case Claimed => target in {Preparing, Finished(CANCELLED), Finished(INFRA_ERROR), Lost}
    case Preparing => target in {Executing, Finished(CANCELLED), Finished(INFRA_ERROR), Lost}
    case Executing => target in {Collecting, Finished(CANCELLED), Finished(FAILED), Finished(TIMED_OUT),
                                 Finished(INFRA_ERROR), Lost}
    case Collecting => AttemptTerminal(target)
    case Finished(_) => false
    case Lost => false
  }

  /** The table read backwards: from where each run state can be reached in one step. */
  lemma RunStatesFollow(s: RunState, o: ResultOutcome)
    ensures !RunMay(s, Created)
    ensures RunMay(s, Queued) <==> s == Created || s == RetryWait
    ensures RunMay(s, Dispatching) <==> s == Queued
    ensures RunMay(s, Running) <==> s == Dispatching
    ensures RunMay(s, RetryWait) <==> s == Running
    ensures RunMay(s, Cancelling) <==> !s.Ended? && s != Cancelling
    ensures RunMay(s, Ended(SUCCEEDED)) <==> s == Running
    ensures RunMay(s, Ended(CANCELLED)) <==> s == Cancelling
    ensures o in {FAILED, TIMED_OUT} ==>
              (RunMay(s, Ended(o)) <==> s == Queued || s == Dispatching || s == Running || s == Cancelling)
    ensures RunMay(s, Ended(INFRA_ERROR)) <==> !s.Ended? && s != Created
  {
  }

  /** The same for attempts: they advance one phase at a time, and SUCCEEDED comes only after collecting. */
  lemma AttemptStatesFollow(s: AttemptState, o: ResultOutcome)
    ensures !AttemptMay(s, Pending)
    ensures AttemptMay(s, Claimed) <==> s == Pending
    ensures AttemptMay(s, Preparing) <==> s == Claimed
    ensures AttemptMay(s, Executing) <==> s == Preparing
    ensures AttemptMay(s, Collecting) <==> s == Executing
    ensures AttemptMay(s, Finished(SUCCEEDED)) <==> s == Collecting
    ensures AttemptMay(s, Finished(CANCELLED)) <==> !AttemptTerminal(s)
    ensures o in {FAILED, TIMED_OUT} ==> (AttemptMay(s, Finished(o)) <==> s == Executing || s == Collecting)
    ensures AttemptMay(s, Finished(INFRA_ERROR)) <==> Leased(s)
    ensures AttemptMay(s, Lost) <==> Leased(s)
  {
  }

  datatype Error =
    | RunNotFound | AttemptNotFound | InvalidTransition | AttemptConflict | TerminalRunConflict
    | BadRunnerId | BadLease | NotOwner | IdentityMismatch | EventConflict | NegativeCursor

  datatype RunRecord = RunRecord(engine: Engine, state: RunState, version: nat)
  {
    function WithState(target: RunState): Result<RunRecord, Error> {
      if RunMay(state, target) then Ok(this.(state := target, version := version + 1)) else Err(InvalidTransition)
    }
  }

  datatype ResultEnvelope = ResultEnvelope(runId: RunId, attemptId: AttemptId, outcome: ResultOutcome)

  datatype AttemptRecord = AttemptRecord(id: AttemptId, runId: RunId, state: AttemptState, version: nat,
                                         outcome: Option<ResultOutcome>, runnerId: string, leaseExpires: Option<int>)
  {
    function WithState(target: AttemptState): Result<AttemptRecord, Error> {
      if AttemptMay(state, target) then Ok(this.(state := target, version := version + 1)) else Err(InvalidTransition)
    }

    function WithResult(target: AttemptState, result: ResultEnvelope): Result<AttemptRecord, Error> {
      if result.attemptId != id || result.runId != runId then Err(IdentityMismatch)
      else if !AttemptMay(state, target) then Err(InvalidTransition)
      else Ok(this.(state := target, version := version + 1, outcome := Some(result.outcome)))
    }

    /** `runner` is the runner identity after stripping blanks. */
    function Claim(runner: string, leaseSeconds: int, now: int): Result<AttemptRecord, Error> {
      if runner == "" || |runner| > 255 then Err(BadRunnerId)
      else if leaseSeconds <= 0 then Err(BadLease)
      else if !AttemptMay(state, Claimed) then Err(InvalidTransition)
      else Ok(this.(state := Claimed, version := version + 1, runnerId := runner,
                    leaseExpires := Some(now + leaseSeconds)))
    }

    function WithHeartbeat(runner: string, leaseSeconds: int, now: int): Result<AttemptRecord, Error> {
      if !Leased(state) then Err(InvalidTransition)
      else if runnerId != runner then Err(NotOwner)
      else if leaseExpires.None? || leaseExpires.value <= now then Err(InvalidTransition)
      else if leaseSeconds <= 0 then Err(BadLease)
      else Ok(this.(leaseExpires := Some(now + leaseSeconds)))
    }

    function AsLost(): Result<AttemptRecord, Error> {
      if AttemptMay(state, Lost) then Ok(this.(state := Lost, version := version + 1, outcome := Some(INFRA_ERROR)))
      else Err(InvalidTransition)
    }
  }

  // ------------------------------------------------------------------ retries

  datatype RetryPolicy = RetryPolicy(maxAttempts: nat, retryOn: set<ResultOutcome>, backoffSeconds: nat,
                                     maxBackoffSeconds: nat, allowNonIdempotentHttp: bool)

  /** The bounds a policy is validated against before it is used. */
  predicate ValidPolicy(p: RetryPolicy) {
    && 1 <= p.maxAttempts <= 5
    && SUCCEEDED !in p.retryOn && CANCELLED !in p.retryOn
    && p.backoffSeconds <= 300 && p.backoffSeconds <= p.maxBackoffSeconds <= 600
  }

  /** `methods` are the upper-cased methods of the main request and of every before and after step. */
  datatype Task = Task(runId: RunId, attemptId: AttemptId, engine: Engine, policy: RetryPolicy, methods: seq<string>)

  datatype RetryDecision = Stop(reason: StopReason) | Retry(delaySeconds: nat)
  datatype StopReason = MaxAttemptsReached | OutcomeNotRetryable | NonIdempotentHttp

  const IDEMPOTENT: set<string> := {"GET", "HEAD", "OPTIONS", "TRACE", "PUT", "DELETE"}

  function Pow2(n: nat): (p: nat)
    ensures p >= 1
  {
    if n == 0 then 1 else 2 * Pow2(n - 1)
  }

  predicate MayRepeat(task: Task) {
    task.engine == HTTP && !task.policy.allowNonIdempotentHttp ==> forall m | m in task.methods :: m in IDEMPOTENT
  }

  function Delay(p: RetryPolicy, attemptNumber: nat): nat {
    var exponent := if attemptNumber >= 1 then attemptNumber - 1 else 0;
    var delay := p.backoffSeconds * Pow2(exponent);
    if delay <= p.maxBackoffSeconds then delay else p.maxBackoffSeconds
  }

  function DecideRetry(task: Task, outcome: ResultOutcome, attemptNumber: nat): RetryDecision {
    if attemptNumber >= task.policy.maxAttempts then Stop(MaxAttemptsReached)
    else if outcome !in task.policy.retryOn then Stop(OutcomeNotRetryable)
    else if !MayRepeat(task) then Stop(NonIdempotentHttp)
    else Retry(Delay(task.policy, attemptNumber))
  }

  lemma {:induction false} Pow2Grows(m: nat, n: nat)
    requires m <= n
    ensures Pow2(m) <= Pow2(n)
    decreases n
  {
    if m < n {
      Pow2Grows(m, n - 1);
    }
  }

  /**
    Delays never shrink from attempt to attempt, never exceed the cap, and once
    the cap is reached they stay there.
   */
  lemma BackoffIsCappedAndMonotone(p: RetryPolicy, m: nat, n: nat)
    requires ValidPolicy(p) && 1 <= m <= n
    ensures p.backoffSeconds <= Delay(p, m) <= Delay(p, n) <= p.maxBackoffSeconds
    ensures Delay(p, m) == p.maxBackoffSeconds ==> Delay(p, n) == p.maxBackoffSeconds
  {
    Pow2Grows(0, m - 1);
    Pow2Grows(m - 1, n - 1);
    var a, b := Pow2(m - 1), Pow2(n - 1);
    ScaleGrows(p.backoffSeconds, 1, a);
    ScaleGrows(p.backoffSeconds, a, b);
  }

  /** The first delay is the base; every further one is twice the one before, up to the cap. */
  lemma BackoffDoubles(p: RetryPolicy, n: nat)
    requires n >= 1
    ensures ValidPolicy(p) ==> Delay(p, 1) == p.backoffSeconds
    ensures Delay(p, n + 1) == if 2 * Delay(p, n) <= p.maxBackoffSeconds then 2 * Delay(p, n) else p.maxBackoffSeconds
  {
    var a := Pow2(n - 1);
    assert Pow2(n) == 2 * a;
    assert p.backoffSeconds * Pow2(n) == 2 * (p.backoffSeconds * a);
  }

  lemma ScaleGrows(x: nat, a: nat, b: nat)
    requires a <= b
    ensures x * a <= x * b
  {
  }
}
