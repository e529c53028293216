/**
  The in-memory run repository: tables changed in place under one lock. Every
  method is proved to take the step of RunStore or EventLog with the same name.
 */
module RunRepositoryModel {
  import opened Wrappers
  import opened RunDomain
  import opened RunStore
  import opened EventLog
  import opened Sorting

  /** A call took the given step: on success the new tables are the step's, on failure nothing changed. */
  predicate Takes<T>(step: Result<Store, Error>, before: Store, after: Store, r: Result<T, Error>) {
    match step
    case Ok(t) => r.Ok? && after == t
    case Err(e) => r == Err(e) && after == before
  }

  /** The sweep returns this record for one of the given attempts. */
  predicate IsReaped(attempts: map<AttemptId, AttemptRecord>, done: set<AttemptId>, cutoff: int, x: AttemptRecord) {
    exists a | a in done :: a in attempts && Expired(attempts[a], cutoff) && x == Reaped(attempts[a], cutoff)
  }

  class RunRepository {
    var runs: map<RunId, RunRecord>
    var attempts: map<AttemptId, AttemptRecord>
    var events: map<EventId, EventRecord>
    var eventSequences: map<(AttemptId, nat), EventId>
    var nextCursor: nat

    /** The events in the order they were appended. */
    ghost var log: Log

    ghost predicate Valid()
      reads this`events, this`eventSequences, this`nextCursor, this`log
    {
      LogOk(log) && nextCursor == |log| + 1 && Indexed(log, events, eventSequences)
    }

    function Contents(): Store
      reads this`runs, this`attempts
    {
      Store(runs, attempts)
    }

    constructor ()
      ensures Valid() && Contents() == Store(map[], map[]) && log == []
    {
      runs, attempts, events, eventSequences, nextCursor, log := map[], map[], map[], map[], 1, [];
    }

    /** `id` is the fresh identifier the caller drew. */
    method Create(id: RunId, engine: Engine) returns (record: RunRecord)
      requires id !in runs
      modifies this`runs
      ensures Contents() == CreateRun(old(Contents()), id, engine)
      ensures record == RunRecord(engine, Created, 0)
    {
      record := RunRecord(engine, Created, 0);
      runs := runs[id := record];
    }

    method Get(id: RunId) returns (r: Result<RunRecord, Error>)
      ensures r == if id in runs then Ok(runs[id]) else Err(RunNotFound)
    {
      r := if id in runs then Ok(runs[id]) else Err(RunNotFound);
    }

    method GetAttempt(id: AttemptId) returns (r: Result<AttemptRecord, Error>)
      ensures r == if id in attempts then Ok(attempts[id]) else Err(AttemptNotFound)
    {
      r := if id in attempts then Ok(attempts[id]) else Err(AttemptNotFound);
    }

    method Transition(id: RunId, target: RunState) returns (r: Result<RunRecord, Error>)
      modifies this`runs
      ensures Takes(MoveRun(old(Contents()), id, target), old(Contents()), Contents(), r)
      ensures r.Ok? ==> r.value == runs[id]
    {
      if id !in runs {
        return Err(RunNotFound);
      }
      r := runs[id].WithState(target);
      if r.Ok? {
        runs := runs[id := r.value];
      }
    }

    method Cancel(id: RunId) returns (r: Result<RunRecord, Error>)
      modifies this`runs
      ensures Takes(CancelRun(old(Contents()), id), old(Contents()), Contents(), r)
      ensures r.Ok? ==> r.value == runs[id] && r.value.state == Cancelling
    {
      if id !in runs {
        return Err(RunNotFound);
      }
      if RunTerminal(runs[id].state) {
        return Err(TerminalRunConflict);
      }
      if runs[id].state == Cancelling {
        return Ok(runs[id]);
      }
      r := runs[id].WithState(Cancelling);
      if r.Ok? {
        runs := runs[id := r.value];
      }
    }

    method Begin(run: RunId, attempt: AttemptId, runner: string, leaseSeconds: int, now: int)
      returns (r: Result<AttemptRecord, Error>)
      modifies this`runs, this`attempts
      ensures Takes(BeginAttempt(old(Contents()), run, attempt, runner, leaseSeconds, now), old(Contents()), Contents(),
                    r)
      ensures r.Ok? ==> r.value == attempts[attempt]
    {
      if run !in runs {
        return Err(RunNotFound);
      }
      if attempt in attempts {
        return Err(AttemptConflict);
      }
      var running := runs[run].WithState(Running);
      if running.Err? {
        return Err(running.error);
      }
      var pending := AttemptRecord(attempt, run, Pending, 0, None, "", None);
      r := pending.Claim(runner, leaseSeconds, now);
      if r.Ok? {
        runs := runs[run := running.value];
        attempts := attempts[attempt := r.value];
      }
    }

    method TransitionAttempt(id: AttemptId, target: AttemptState) returns (r: Result<AttemptRecord, Error>)
      modifies this`attempts
      ensures Takes(MoveAttempt(old(Contents()), id, target), old(Contents()), Contents(), r)
      ensures r.Ok? ==> r.value == attempts[id]
    {
      if id !in attempts {
        return Err(AttemptNotFound);
      }
      r := attempts[id].WithState(target);
      if r.Ok? {
        attempts := attempts[id := r.value];
      }
    }

    method RenewAttemptLease(id: AttemptId, runner: string, leaseSeconds: int, now: int)
      returns (r: Result<AttemptRecord, Error>)
      modifies this`attempts
      ensures Takes(RenewLease(old(Contents()), id, runner, leaseSeconds, now), old(Contents()), Contents(), r)
      ensures r.Ok? ==> r.value == attempts[id]
    {
      if id !in attempts {
        return Err(AttemptNotFound);
      }
      r := attempts[id].WithHeartbeat(runner, leaseSeconds, now);
      if r.Ok? {
        attempts := attempts[id := r.value];
      }
    }

    method Complete(id: AttemptId, target: AttemptState, result: ResultEnvelope)
      returns (r: Result<AttemptRecord, Error>)
      modifies this`attempts
      ensures Takes(CompleteAttempt(old(Contents()), id, target, result), old(Contents()), Contents(), r)
      ensures r.Ok? ==> r.value == attempts[id]
    {
      if id !in attempts {
        return Err(AttemptNotFound);
      }
      r := attempts[id].WithResult(target, result);
      if r.Ok? {
        attempts := attempts[id := r.value];
      }
    }

    /**
      The reaper visits the attempts in any order. It succeeds exactly on
      sweepable tables; if it raises, the part already swept stays swept.
     */
    method ExpireAttemptLeases(cutoff: int) returns (r: Result<seq<AttemptRecord>, Error>)
      modifies this`runs, this`attempts
      ensures r.Ok? <==> Sweepable(old(Contents()), cutoff)
      ensures r.Ok? ==> Contents() == ExpireLeases(old(Contents()), cutoff)
      ensures r.Ok? ==> forall x :: x in r.value <==> IsReaped(old(attempts), old(attempts).Keys, cutoff, x)
      ensures exists done :: done <= old(attempts).Keys && Contents() == SweptSoFar(old(Contents()), cutoff, done)
    {
      hide SweptSoFar, ExpireLeases;
      ghost var s := Contents();
      ghost var done: set<AttemptId> := {};
      var rest := attempts.Keys;
      var items := attempts;
      var expired: seq<AttemptRecord> := [];
      SweptAll(s, cutoff);
      while rest != {}
        invariant items == s.attempts && done <= s.attempts.Keys && rest == s.attempts.Keys - done
        invariant Contents() == SweptSoFar(s, cutoff, done)
        invariant forall a | a in done && Expired(s.attempts[a], cutoff) ::
                    s.attempts[a].runId in s.runs && s.runs[s.attempts[a].runId].state != Created
        invariant forall x :: x in expired <==> IsReaped(s.attempts, done, cutoff, x)
      {
        var id :| id in rest;
        var current := items[id];
        SweepOneMore(s, cutoff, done, id);
        rest, done := rest - {id}, done + {id};
        if Expired(current, cutoff) {
          var updated := current.AsLost();
          attempts := attempts[id := updated.value];
          if current.runId !in runs {
            return Err(RunNotFound);
          }
          var run := runs[current.runId];
          if !RunTerminal(run.state) {
            var ended := run.WithState(Ended(INFRA_ERROR));
            if ended.Err? {
              return Err(ended.error);
            }
            runs := runs[current.runId := ended.value];
          }
          expired := expired + [updated.value];
        }
      }
      assert done == s.attempts.Keys;
      return Ok(expired);
    }

    method AppendEvent(e: EventEnvelope) returns (r: Result<EventRecord, Error>)
      requires Valid()
      modifies this`events, this`eventSequences, this`nextCursor, this`log
      ensures Valid()
      ensures match Append(Contents(), old(log), e)
              case Ok(longer) => r.Ok? && log == longer && r.value in log && r.value.event == e
              case Err(error) => r == Err(error) && log == old(log)
    {
      hide Indexed, LogOk, HasId, HasNumber;
      IndexLookup(log, events, eventSequences, e);
      if e.attemptId !in attempts {
        return Err(AttemptNotFound);
      }
      if attempts[e.attemptId].runId != e.runId {
        return Err(EventConflict);
      }
      if e.runId !in runs {
        return Err(RunNotFound);
      }
      if runs[e.runId].engine != e.engine {
        return Err(EventConflict);
      }
      if e.id in events {
        return if events[e.id].event == e then Ok(events[e.id]) else Err(EventConflict);
      }
      if (e.attemptId, e.number) in eventSequences {
        return Err(EventConflict);
      }
      AppendKeepsLog(Contents(), log, e);
      var record := EventRecord(nextCursor, e);
      IndexOneMore(log, events, eventSequences, record);
      nextCursor := nextCursor + 1;
      events := events[e.id := record];
      eventSequences := eventSequences[(e.attemptId, e.number) := e.id];
      log := log + [record];
      return Ok(record);
    }

    /** The events of a run after a cursor, whatever order the table yields them in. */
    method ListEvents(run: RunId, after: int) returns (r: Result<Log, Error>)
      requires Valid()
      ensures r == if after < 0 then Err(NegativeCursor)
                   else if run !in runs then Err(RunNotFound)
                   else Ok(Listed(log, run, after))
    {
      if after < 0 {
        return Err(NegativeCursor);
      }
      if run !in runs {
        return Err(RunNotFound);
      }
      var rest := events.Keys;
      var found: Log := [];
      while rest != {}
        invariant rest <= events.Keys && ByCursor(found)
        invariant forall x :: x in found <==> x in log && Wanted(x, run, after) && x.event.id !in rest
      {
        var id :| id in rest;
        if Wanted(events[id], run, after) {
          DistinctCursors(id, found);
          InsertSorts(found, events[id]);
          found := Insert(NotAfter, events[id], found);
        }
        rest := rest - {id};
      }
      assert ByCursor(log);
      ListedIsSorted(log, run, after);
      ListingIsUnique(found, Listed(log, run, after));
      return Ok(found);
    }

    lemma DistinctCursors(id: EventId, found: Log)
      requires Valid() && id in events && forall x | x in found :: x in log && x.event.id != id
      ensures forall x | x in found :: x.cursor != events[id].cursor
    {
      forall x | x in found
        ensures x.cursor != events[id].cursor
      {
        var i :| 0 <= i < |log| && log[i] == x;
        var j :| 0 <= j < |log| && log[j] == events[id];
      }
    }
  }
}
