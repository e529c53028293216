/**
  The append-only event log as a value: one cursor sequence shared by all runs,
  and one sequence number per attempt.
 */
module EventLog {
  import opened Wrappers
  import opened RunDomain
  import opened RunStore
  import opened Sorting

  type EventId = nat
  datatype EventKind = HeartbeatEvent | ArtifactEvent | ScreenshotEvent | OtherEvent(name: string)

  datatype EventEnvelope = EventEnvelope(id: EventId, runId: RunId, attemptId: AttemptId, engine: Engine, number: nat,
                                         occurredAt: int, kind: EventKind, payload: string)
  datatype EventRecord = EventRecord(cursor: nat, event: EventEnvelope)
  type Log = seq<EventRecord>

  /** Cursors run 1, 2, 3, ...; event ids and (attempt, number) pairs are never reused. */
  ghost predicate LogOk(log: Log) {
    && (forall i | 0 <= i < |log| :: log[i].cursor == i + 1)
    && (forall i, j | 0 <= i < j < |log| :: log[i].event.id != log[j].event.id)
    && (forall i, j | 0 <= i < j < |log| ::
          log[i].event.attemptId != log[j].event.attemptId || log[i].event.number != log[j].event.number)
  }

  predicate HasId(log: Log, id: EventId) {
    exists r | r in log :: r.event.id == id
  }

  predicate HasNumber(log: Log, attempt: AttemptId, number: nat) {
    exists r | r in log :: r.event.attemptId == attempt && r.event.number == number
  }

  /** Whether the log takes the event, and what it then looks like. */
  function Append(s: Store, log: Log, e: EventEnvelope): Result<Log, Error> {
    if e.attemptId !in s.attempts then Err(AttemptNotFound)
    else if s.attempts[e.attemptId].runId != e.runId then Err(EventConflict)
    else if e.runId !in s.runs then Err(RunNotFound)
    else if s.runs[e.runId].engine != e.engine then Err(EventConflict)
    else if HasId(log, e.id) then
      if exists r | r in log :: r.event == e then Ok(log) else Err(EventConflict)
    else if HasNumber(log, e.attemptId, e.number) then Err(EventConflict)
    else Ok(log + [EventRecord(|log| + 1, e)])
  }

  /**
    Appending keeps the log well formed, never rewrites it, and repeating an
    append that succeeded changes nothing.
   */
  lemma AppendKeepsLog(s: Store, log: Log, e: EventEnvelope)
    requires LogOk(log) && Append(s, log, e).Ok?
    ensures LogOk(Append(s, log, e).value)
    ensures log <= Append(s, log, e).value && |Append(s, log, e).value| <= |log| + 1
    ensures Append(s, Append(s, log, e).value, e) == Ok(Append(s, log, e).value)
  {
    var longer := Append(s, log, e).value;
    if longer != log {
      assert forall i | 0 <= i < |log| :: log[i] in log;
      assert longer[|log|] in longer;
    }
  }

  /** The log already has an event with this identifier, or with this number of the same attempt. */
  ghost predicate Clashes(log: Log, e: EventEnvelope) {
    exists r | r in log ::
      r.event.id == e.id || (r.event.attemptId == e.attemptId && r.event.number == e.number)
  }

  ghost predicate AlreadyIn(log: Log, e: EventEnvelope) {
    exists r | r in log :: r.event == e
  }

  /**
    An event is taken exactly if it belongs to its attempt, run and engine and
    is either new in identifier and number or already there, word for word; a
    new one goes to the end, under the next cursor.
   */
  lemma AppendsExactly(s: Store, log: Log, e: EventEnvelope)
    requires LogOk(log)
    ensures Append(s, log, e).Ok?
       <==> && e.attemptId in s.attempts && s.attempts[e.attemptId].runId == e.runId
            && e.runId in s.runs && s.runs[e.runId].engine == e.engine
            && (AlreadyIn(log, e) || !Clashes(log, e))
    ensures Append(s, log, e).Ok? ==>
              Append(s, log, e).value == if AlreadyIn(log, e) then log else log + [EventRecord(|log| + 1, e)]
  {
    if AlreadyIn(log, e) {
      assert HasId(log, e.id);
    }
  }

  // ----------------------------------------------------------------- listing

  predicate Wanted(r: EventRecord, run: RunId, after: int) {
    r.event.runId == run && r.cursor > after
  }

  /** The run's events after a cursor, in cursor order. */
  function Listed(log: Log, run: RunId, after: int): Log {
    if log == [] then []
    else
      var last := log[|log| - 1];
      Listed(log[..|log| - 1], run, after) + if Wanted(last, run, after) then [last] else []
  }

  ghost predicate ByCursor(records: Log) {
    forall i, j | 0 <= i < j < |records| :: records[i].cursor < records[j].cursor
  }

  lemma {:induction false} ListedIsSorted(log: Log, run: RunId, after: int)
    requires ByCursor(log)
    ensures ByCursor(Listed(log, run, after))
    ensures forall r :: r in Listed(log, run, after) <==> r in log && r.event.runId == run && r.cursor > after
  {
    if log != [] {
      var front, last := log[..|log| - 1], log[|log| - 1];
      ListedIsSorted(front, run, after);
      assert log == front + [last];
      assert forall r | r in front :: r.cursor < last.cursor;
    }
  }

  /** A strictly sorted list is determined by its elements. */
  lemma {:induction false} ListingIsUnique(a: Log, b: Log)
    requires ByCursor(a) && ByCursor(b) && forall r :: r in a <==> r in b
    ensures a == b
  {
    if b != [] {
      assert b[0] in a;
    }
    if a != [] {
      SameFirst(a, b);
      TailMembers(a);
      TailMembers(b);
      ListingIsUnique(a[1..], b[1..]);
      assert a == [a[0]] + a[1..] && b == [b[0]] + b[1..];
    }
  }

  lemma SameFirst(a: Log, b: Log)
    requires ByCursor(a) && ByCursor(b) && a != [] && forall r :: r in a <==> r in b
    ensures b != [] && a[0] == b[0]
  {
    assert a[0] in b;
    assert b[0] in a;
    var i :| 0 <= i < |b| && b[i] == a[0];
    var j :| 0 <= j < |a| && a[j] == b[0];
    assert a[0].cursor <= a[j].cursor && b[0].cursor <= b[i].cursor;
    assert i == 0;
  }

  lemma TailMembers(a: Log)
    requires a != [] && ByCursor(a)
    ensures forall r :: r in a[1..] <==> r in a && r != a[0]
    ensures ByCursor(a[1..])
  {
    forall r
      ensures r in a[1..] <==> r in a && r != a[0]
    {
      if r in a {
        var i :| 0 <= i < |a| && a[i] == r;
        assert i > 0 ==> a[1..][i - 1] == r;
      }
    }
  }

  lemma {:induction false} ListedAppend(log: Log, r: EventRecord, run: RunId, after: int)
    ensures Listed(log + [r], run, after) == Listed(log, run, after) + if Wanted(r, run, after) then [r] else []
  {
    assert (log + [r])[..|log|] == log;
  }

  predicate NotAfter(x: EventRecord, y: EventRecord) {
    x.cursor <= y.cursor
  }

  lemma {:induction false} InsertSorts(records: Log, r: EventRecord)
    requires ByCursor(records) && forall x | x in records :: x.cursor != r.cursor
    ensures ByCursor(Insert(NotAfter, r, records))
    ensures forall x :: x in Insert(NotAfter, r, records) <==> x in records || x == r
  {
    InsertAdds(NotAfter, r, records);
    if records != [] && records[0].cursor < r.cursor {
      InsertSorts(records[1..], r);
      InsertAdds(NotAfter, r, records[1..]);
      var rest := Insert(NotAfter, r, records[1..]);
      forall i | 0 <= i < |rest| ensures records[0].cursor < rest[i].cursor {
        assert rest[i] in rest;
      }
    } else if records != [] {
      assert records[0] in records;
    }
  }

  /** The repository's indexes agree with the log. */
  ghost predicate Indexed(log: Log, events: map<EventId, EventRecord>, sequences: map<(AttemptId, nat), EventId>) {
    && (forall r | r in log :: r.event.id in events && events[r.event.id] == r)
    && (forall id | id in events :: events[id] in log && events[id].event.id == id)
    && (forall r | r in log :: (r.event.attemptId, r.event.number) in sequences)
    && (forall key | key in sequences :: HasNumber(log, key.0, key.1))
  }

  lemma IndexOneMore(log: Log, events: map<EventId, EventRecord>, sequences: map<(AttemptId, nat), EventId>,
                     r: EventRecord)
    requires Indexed(log, events, sequences) && r.event.id !in events
    ensures Indexed(log + [r], events[r.event.id := r], sequences[(r.event.attemptId, r.event.number) := r.event.id])
  {
    var longer := log + [r];
    assert forall x :: x in longer <==> x in log || x == r;
  }

  /** The indexes answer what the log would answer. */
  lemma IndexLookup(log: Log, events: map<EventId, EventRecord>, sequences: map<(AttemptId, nat), EventId>,
                    e: EventEnvelope)
    requires Indexed(log, events, sequences)
    ensures e.id in events <==> HasId(log, e.id)
    ensures e.id in events ==> events[e.id] in log && (events[e.id].event == e <==> exists r | r in log :: r.event == e)
    ensures (e.attemptId, e.number) in sequences <==> HasNumber(log, e.attemptId, e.number)
  {
  }
}
