/**
  The run and attempt tables as values, and each repository operation as the
  step it takes from one value to the next. The class in RunRepository is
  proved to take exactly these steps.
 */
module RunStore {
  import opened Wrappers
  import opened RunDomain

  datatype Store = Store(runs: map<RunId, RunRecord>, attempts: map<AttemptId, AttemptRecord>)

  function CreateRun(s: Store, id: RunId, engine: Engine): Store {
    s.(runs := s.runs[id := RunRecord(engine, Created, 0)])
  }

  function MoveRun(s: Store, id: RunId, target: RunState): Result<Store, Error> {
    if id !in s.runs then Err(RunNotFound)
    else match s.runs[id].WithState(target)
      case Ok(updated) => Ok(s.(runs := s.runs[id := updated]))
      case Err(e) => Err(e)
  }

  function CancelRun(s: Store, id: RunId): Result<Store, Error> {
    if id !in s.runs then Err(RunNotFound)
    else if RunTerminal(s.runs[id].state) then Err(TerminalRunConflict)
    else if s.runs[id].state == Cancelling then Ok(s)
    else MoveRun(s, id, Cancelling)
  }

  function BeginAttempt(s: Store, run: RunId, attempt: AttemptId, runner: string, leaseSeconds: int, now: int)
    : Result<Store, Error>
  {
    if run !in s.runs then Err(RunNotFound)
    else if attempt in s.attempts then Err(AttemptConflict)
    else match s.runs[run].WithState(Running)
      case Err(e) => Err(e)
      case Ok(running) =>
        match AttemptRecord(attempt, run, Pending, 0, None, "", None).Claim(runner, leaseSeconds, now)
        case Err(e) => Err(e)
        case Ok(claimed) => Ok(Store(s.runs[run := running], s.attempts[attempt := claimed]))
  }

  function MoveAttempt(s: Store, id: AttemptId, target: AttemptState): Result<Store, Error> {
    if id !in s.attempts then Err(AttemptNotFound)
    else match s.attempts[id].WithState(target)
      case Ok(updated) => Ok(s.(attempts := s.attempts[id := updated]))
      case Err(e) => Err(e)
  }

  function RenewLease(s: Store, id: AttemptId, runner: string, leaseSeconds: int, now: int): Result<Store, Error> {
    if id !in s.attempts then Err(AttemptNotFound)
    else match s.attempts[id].WithHeartbeat(runner, leaseSeconds, now)
      case Ok(updated) => Ok(s.(attempts := s.attempts[id := updated]))
      case Err(e) => Err(e)
  }

  function CompleteAttempt(s: Store, id: AttemptId, target: AttemptState, result: ResultEnvelope): Result<Store, Error>
  {
    if id !in s.attempts then Err(AttemptNotFound)
    else match s.attempts[id].WithResult(target, result)
      case Ok(updated) => Ok(s.(attempts := s.attempts[id := updated]))
      case Err(e) => Err(e)
  }

  function AttemptsOf(s: Store, run: RunId): set<AttemptId> {
    set a | a in s.attempts && s.attempts[a].runId == run
  }

  /** A cancellation is accepted exactly while the run has not ended, and the run is then CANCELLING. */
  lemma CancelsExactly(s: Store, id: RunId)
    ensures CancelRun(s, id).Ok? <==> id in s.runs && !s.runs[id].state.Ended?
    ensures CancelRun(s, id).Ok? ==>
              var t := CancelRun(s, id).value;
              && t.attempts == s.attempts && t.runs.Keys == s.runs.Keys && t.runs[id].state == Cancelling
              && (forall r | r in s.runs && r != id :: t.runs[r] == s.runs[r])
              && (s.runs[id].state == Cancelling ==> t == s)
  {
  }

  /** A run that has been queued and has not ended can be ended as an infrastructure failure, whatever its state. */
  lemma ConvergesExactly(s: Store, id: RunId)
    ensures MoveRun(s, id, Ended(INFRA_ERROR)).Ok?
       <==> id in s.runs && s.runs[id].state != Created && !s.runs[id].state.Ended?
  {
  }

  /** A claim succeeds exactly for a new attempt on a DISPATCHING run; run and attempt change together. */
  lemma BeginsExactly(s: Store, run: RunId, attempt: AttemptId, runner: string, leaseSeconds: int, now: int)
    ensures var r := BeginAttempt(s, run, attempt, runner, leaseSeconds, now);
            && (r.Ok? <==> && run in s.runs && s.runs[run].state == Dispatching && attempt !in s.attempts
                           && 1 <= |runner| <= 255 && leaseSeconds > 0)
            && (r.Ok? ==>
                  var record := AttemptRecord(attempt, run, Claimed, 1, None, runner, Some(now + leaseSeconds));
                  && r.value.runs == s.runs[run := s.runs[run].(state := Running, version := s.runs[run].version + 1)]
                  && r.value.attempts == s.attempts[attempt := record])
  {
  }

  /** A result is recorded exactly if it names the attempt and its run, and the attempt may end that way. */
  lemma CompletesExactly(s: Store, id: AttemptId, target: AttemptState, result: ResultEnvelope)
    requires id in s.attempts && s.attempts[id].id == id
    ensures CompleteAttempt(s, id, target, result).Ok?
       <==> result.attemptId == id && result.runId == s.attempts[id].runId && AttemptMay(s.attempts[id].state, target)
    ensures CompleteAttempt(s, id, target, result).Ok? ==>
              var t := CompleteAttempt(s, id, target, result).value;
              && t.runs == s.runs && t.attempts.Keys == s.attempts.Keys
              && (forall a | a in s.attempts && a != id :: t.attempts[a] == s.attempts[a])
              && t.attempts[id].state == target && t.attempts[id].outcome == Some(result.outcome)
              && t.attempts[id].runId == s.attempts[id].runId && t.attempts[id].id == id
  {
  }

  // ------------------------------------------------------------- the reaper

  predicate Expired(a: AttemptRecord, cutoff: int) {
    Leased(a.state) && a.leaseExpires.Some? && a.leaseExpires.value <= cutoff
  }

  /** The reaper's outcome for one attempt. */
  function Reaped(a: AttemptRecord, cutoff: int): AttemptRecord {
    if Expired(a, cutoff) then a.(state := Lost, version := a.version + 1, outcome := Some(INFRA_ERROR)) else a
  }

  /** Some attempt of the run has an expired lease. */
  predicate HasExpired(s: Store, run: RunId, cutoff: int) {
    exists a | a in s.attempts :: s.attempts[a].runId == run && Expired(s.attempts[a], cutoff)
  }

  /** The reaper's outcome for one run. */
  function Swept(s: Store, run: RunId, cutoff: int): RunRecord
    requires run in s.runs
  {
    var r := s.runs[run];
    if HasExpired(s, run, cutoff) && !RunTerminal(r.state)
    then r.(state := Ended(INFRA_ERROR), version := r.version + 1) else r
  }

  /** All expired leases reclaimed, and every run that lost an attempt ended. */
  function ExpireLeases(s: Store, cutoff: int): Store {
    Store(map r | r in s.runs :: Swept(s, r, cutoff), map a | a in s.attempts :: Reaped(s.attempts[a], cutoff))
  }

  /** The sweep meets no run it cannot end. */
  predicate Sweepable(s: Store, cutoff: int) {
    forall a | a in s.attempts && Expired(s.attempts[a], cutoff) ::
      s.attempts[a].runId in s.runs && s.runs[s.attempts[a].runId].state != Created
  }

  lemma SweepLeavesNoExpiredLease(s: Store, cutoff: int)
    ensures forall a | a in ExpireLeases(s, cutoff).attempts :: !Expired(ExpireLeases(s, cutoff).attempts[a], cutoff)
    ensures ExpireLeases(ExpireLeases(s, cutoff), cutoff) == ExpireLeases(s, cutoff)
  {
    var t := ExpireLeases(s, cutoff);
    assert forall r | r in t.runs :: !HasExpired(t, r, cutoff);
  }

  // ------------------------------------------------------ a sweep in progress

  predicate HasExpiredIn(s: Store, run: RunId, cutoff: int, done: set<AttemptId>) {
    exists a | a in done :: a in s.attempts && s.attempts[a].runId == run && Expired(s.attempts[a], cutoff)
  }

  function SweptRun(s: Store, run: RunId, cutoff: int, done: set<AttemptId>): RunRecord
    requires run in s.runs
  {
    var r := s.runs[run];
    if HasExpiredIn(s, run, cutoff, done) && RunMay(r.state, Ended(INFRA_ERROR))
    then r.(state := Ended(INFRA_ERROR), version := r.version + 1) else r
  }

  /** The tables after a sweep has visited the attempts in `done`. */
  function SweptSoFar(s: Store, cutoff: int, done: set<AttemptId>): Store {
    Store(map r | r in s.runs :: SweptRun(s, r, cutoff, done),
          map a | a in s.attempts :: if a in done then Reaped(s.attempts[a], cutoff) else s.attempts[a])
  }

  /** Visiting one more attempt reaps it and, where possible, ends its run. */
  lemma SweepOneMore(s: Store, cutoff: int, done: set<AttemptId>, id: AttemptId)
    requires id in s.attempts && id !in done
    ensures var t, run := SweptSoFar(s, cutoff, done), s.attempts[id].runId;
            && t.runs.Keys == s.runs.Keys
            && (run in s.runs ==> (t.runs[run].state == Created <==> s.runs[run].state == Created))
            && SweptSoFar(s, cutoff, done + {id}) ==
                 if !Expired(s.attempts[id], cutoff) then t
                 else if run in t.runs && RunMay(t.runs[run].state, Ended(INFRA_ERROR))
                 then var ended := t.runs[run].(state := Ended(INFRA_ERROR), version := t.runs[run].version + 1);
                      Store(t.runs[run := ended], t.attempts[id := Reaped(s.attempts[id], cutoff)])
                 else t.(attempts := t.attempts[id := Reaped(s.attempts[id], cutoff)])
  {
    var t, t' := SweptSoFar(s, cutoff, done), SweptSoFar(s, cutoff, done + {id});
    forall r | r in s.runs
      ensures HasExpiredIn(s, r, cutoff, done + {id}) <==>
              HasExpiredIn(s, r, cutoff, done) || (s.attempts[id].runId == r && Expired(s.attempts[id], cutoff))
    {
      if HasExpiredIn(s, r, cutoff, done) {
        var a :| a in done && a in s.attempts && s.attempts[a].runId == r && Expired(s.attempts[a], cutoff);
        assert a in done + {id};
      }
      if s.attempts[id].runId == r && Expired(s.attempts[id], cutoff) {
        assert id in done + {id};
      }
    }
  }

  lemma SweptAll(s: Store, cutoff: int)
    ensures SweptSoFar(s, cutoff, {}) == s
    ensures Sweepable(s, cutoff) ==> SweptSoFar(s, cutoff, s.attempts.Keys) == ExpireLeases(s, cutoff)
  {
    forall r | r in s.runs
      ensures HasExpiredIn(s, r, cutoff, s.attempts.Keys) <==> HasExpired(s, r, cutoff)
    {
      if HasExpired(s, r, cutoff) {
        var a :| a in s.attempts && s.attempts[a].runId == r && Expired(s.attempts[a], cutoff);
        assert a in s.attempts.Keys;
      }
    }
    assert SweptSoFar(s, cutoff, {}).runs == s.runs;
    assert SweptSoFar(s, cutoff, {}).attempts == s.attempts;
  }
}
