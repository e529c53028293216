/**
  The server-sent event stream of a run and its resumption from the last event
  the client received (section 9.2 of the HTML Living Standard).
 */
module EventStreamModel {
  import opened Wrappers
  import opened RunDomain
  import opened RunStore
  import opened EventLog
  import opened RunRepositoryModel

  /** The generator behind one connection. */
  class EventStream {
    const run: RunId
    var cursor: nat
    var elapsed: real

    constructor (run: RunId, after: nat)
      ensures this.run == run && cursor == after && elapsed == 0.0
    {
      this.run, cursor, elapsed := run, after, 0.0;
    }

    /** The first half of a turn: yields what is new, unless the run is missing. */
    method Deliver(repo: RunRepository) returns (events: Log, failed: bool)
      requires repo.Valid()
      modifies this
      ensures failed <==> run !in repo.runs
      ensures if failed then events == [] && cursor == old(cursor)
              else && events == Listed(repo.log, run, old(cursor))
                   && cursor == (if events == [] then old(cursor) else events[|events| - 1].cursor)
                   && Listed(repo.log, run, cursor) == []
      ensures elapsed == if events == [] then old(elapsed) else 0.0
    {
      var listed := repo.ListEvents(run, cursor);
      if listed.Err? {
        return [], true;
      }
      events, failed := listed.value, false;
      assert ByCursor(repo.log);
      for i := 0 to |events|
        invariant cursor == if i == 0 then old(cursor) else events[i - 1].cursor
        invariant elapsed == if i == 0 then old(elapsed) else 0.0
      {
        cursor := events[i].cursor;
        elapsed := 0.0;
      }
      NothingLeft(repo.log, run, old(cursor), cursor);
    }

    /**
      The second half, after others may have had their turn: close on a
      terminal or missing run, or a client that is gone.
     */
    method GoesOn(repo: RunRepository, disconnected: bool) returns (open: bool)
      ensures open <==> run in repo.runs && !RunTerminal(repo.runs[run].state) && !disconnected
    {
      var current := repo.Get(run);
      return current.Ok? && !RunTerminal(current.value.state) && !disconnected;
    }

    /** Sleeping between two polls; a heartbeat comment is due after a quiet interval. */
    method Sleep(pollInterval: real, heartbeatInterval: real) returns (heartbeat: bool)
      requires pollInterval > 0.0
      modifies this`elapsed
      ensures heartbeat <==> old(elapsed) + pollInterval >= heartbeatInterval
      ensures elapsed == if heartbeat then 0.0 else old(elapsed) + pollInterval
    {
      elapsed := elapsed + pollInterval;
      heartbeat := elapsed >= heartbeatInterval;
      if heartbeat {
        elapsed := 0.0;
      }
    }
  }

  lemma NothingLeft(log: Log, run: RunId, after: nat, cursor: nat)
    requires ByCursor(log)
    requires cursor == if Listed(log, run, after) == [] then after
                       else Listed(log, run, after)[|Listed(log, run, after)| - 1].cursor
    ensures Listed(log, run, cursor) == []
  {
    hide Listed;
    var listed := Listed(log, run, after);
    ListedIsSorted(log, run, after);
    if listed != [] {
      assert listed[|listed| - 1] in listed;
    }
    ListedFromPrefix(log, run, after, listed);
  }

  // -------------------------------------------------------- resumed sessions

  /** A client's view: what it received, and the cursor of the connection it has, if any. */
  datatype Client = Client(log: Log, received: Log, session: Option<nat>)

  datatype StreamAction =
    /** An event of any run is appended to the log. */
    | Grow(event: EventEnvelope)
    /** The client connects, announcing the last event it received. */
    | Connect
    /** The stream polls; the client receives the first `taken` events, and if that is not all the connection is cut. */
    | Poll(taken: nat)
    | Disconnect

  /** The cursor to resume from: the later of the initial one and the last one received. */
  function ResumeAt(after: nat, received: Log): nat {
    if received == [] then after
    else
      var last := received[|received| - 1].cursor;
      if after < last then last else after
  }

  function StreamStep(run: RunId, after: nat, c: Client, a: StreamAction): Client {
    match a
    case Grow(event) => c.(log := c.log + [EventRecord(|c.log| + 1, event)])
    case Connect => c.(session := Some(ResumeAt(after, c.received)))
    case Disconnect => c.(session := None)
    case Poll(taken) =>
      if c.session.None? then c
      else
        var events := Listed(c.log, run, c.session.value);
        if taken < |events| then c.(received := c.received + events[..taken], session := None)
        else c.(received := c.received + events, session := Some(ResumeAt(after, c.received + events)))
  }

  function StreamRun(run: RunId, after: nat, c: Client, actions: seq<StreamAction>): Client
    decreases |actions|
  {
    if actions == [] then c else StreamRun(run, after, StreamStep(run, after, c, actions[0]), actions[1..])
  }

  /** Everything received is, in order, the beginning of what the run has to deliver. */
  ghost predicate Resumable(run: RunId, after: nat, c: Client) {
    && (forall i | 0 <= i < |c.log| :: c.log[i].cursor == i + 1)
    && c.received <= Listed(c.log, run, after)
    && (c.session.Some? ==> c.session.value == ResumeAt(after, c.received))
  }

  /** What is listed after the last received event is exactly the rest. */
  lemma ListedFromPrefix(log: Log, run: RunId, after: nat, received: Log)
    requires ByCursor(log) && received <= Listed(log, run, after)
    ensures received + Listed(log, run, ResumeAt(after, received)) == Listed(log, run, after)
  {
    hide Listed;
    ListedIsSorted(log, run, after);
    var all := Listed(log, run, after);
    var rest, next := all[|received|..], ResumeAt(after, received);
    assert all == received + rest;
    ListedIsSorted(log, run, next);
    RestIsLater(all, after, received);
    ListingIsUnique(rest, Listed(log, run, next));
  }

  lemma RestIsLater(all: Log, after: nat, received: Log)
    requires ByCursor(all) && received <= all && forall r | r in all :: r.cursor > after
    ensures ByCursor(all[|received|..])
    ensures forall r :: r in all[|received|..] <==> r in all && r.cursor > ResumeAt(after, received)
  {
    var rest := all[|received|..];
    if received != [] {
      assert received[|received| - 1] == all[|received| - 1];
      assert received[|received| - 1] in all;
    }
    forall r | r in all && r.cursor > ResumeAt(after, received)
      ensures r in rest
    {
      var i :| 0 <= i < |all| && all[i] == r;
      assert rest[i - |received|] == r;
    }
  }

  lemma StreamStepKeeps(run: RunId, after: nat, c: Client, a: StreamAction)
    requires Resumable(run, after, c)
    ensures Resumable(run, after, StreamStep(run, after, c, a))
    ensures c.received <= StreamStep(run, after, c, a).received
  {
    match a
    case Grow(event) =>
      ListedAppend(c.log, EventRecord(|c.log| + 1, event), run, after);
    case Poll(taken) =>
      if c.session.Some? {
        ListedFromPrefix(c.log, run, after, c.received);
      }
    case Connect =>
    case Disconnect =>
  }

  /**
    Over any number of sessions cut at any point, the concatenated deliveries are
    a duplicate-free, gap-free prefix of the run's events after the initial cursor.
   */
  lemma {:induction false} DeliveriesArePrefix(run: RunId, after: nat, c: Client, actions: seq<StreamAction>)
    requires Resumable(run, after, c)
    ensures var end := StreamRun(run, after, c, actions);
            Resumable(run, after, end) && c.received <= end.received && end.received <= Listed(end.log, run, after)
    decreases |actions|
  {
    hide StreamStep;
    if actions != [] {
      StreamStepKeeps(run, after, c, actions[0]);
      DeliveriesArePrefix(run, after, StreamStep(run, after, c, actions[0]), actions[1..]);
    }
  }

  /** A client that stays connected for one uncut poll has caught up completely. */
  lemma UncutPollCatchesUp(run: RunId, after: nat, c: Client, taken: nat)
    requires Resumable(run, after, c) && c.session.Some? && taken >= |Listed(c.log, run, c.session.value)|
    ensures StreamStep(run, after, c, Poll(taken)).received == Listed(c.log, run, after)
  {
    ListedFromPrefix(c.log, run, after, c.received);
  }
}
