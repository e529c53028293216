/**
  How one runner agent numbers its events. The main thread and the heartbeat
  thread emit under one lock, so every emission is one atomic step.
 */
module RunnerAgentModel {
  import opened Wrappers
  import opened RunDomain
  import opened RunStore
  import opened EventLog
  import opened RunRepositoryModel

  /** The sequence numbers of an attempt's events, in cursor order. */
  function NumbersOf(log: Log, attempt: AttemptId): seq<nat> {
    if log == [] then []
    else
      var last := log[|log| - 1];
      NumbersOf(log[..|log| - 1], attempt) + if last.event.attemptId == attempt then [last.event.number] else []
  }

  /** The log holds exactly the numbers 0, 1, ..., next - 1 of the attempt, in this order. */
  ghost predicate InStep(log: Log, attempt: AttemptId, next: nat) {
    |NumbersOf(log, attempt)| == next && forall i | 0 <= i < next :: NumbersOf(log, attempt)[i] == i
  }

  lemma {:induction false} NumbersAppend(log: Log, r: EventRecord, attempt: AttemptId)
    ensures NumbersOf(log + [r], attempt)
         == NumbersOf(log, attempt) + if r.event.attemptId == attempt then [r.event.number] else []
  {
    assert (log + [r])[..|log|] == log;
  }

  lemma {:induction false} NumberIsListed(log: Log, attempt: AttemptId, number: nat)
    ensures HasNumber(log, attempt, number) <==> number in NumbersOf(log, attempt)
  {
    if log != [] {
      var front, last := log[..|log| - 1], log[|log| - 1];
      NumberIsListed(front, attempt, number);
      assert log == front + [last];
      assert forall r :: r in log <==> r in front || r == last;
    }
  }

  lemma EarlierEventHasNumber(log: Log, e: EventEnvelope)
    ensures (exists r | r in log :: r.event == e) ==> HasNumber(log, e.attemptId, e.number)
  {
  }

  /** The next number is free, so an append by the agent always adds its own event. */
  lemma NextNumberIsFree(s: Store, log: Log, e: EventEnvelope)
    requires InStep(log, e.attemptId, e.number) && Append(s, log, e).Ok?
    ensures Append(s, log, e).value == log + [EventRecord(|log| + 1, e)]
    ensures InStep(log + [EventRecord(|log| + 1, e)], e.attemptId, e.number + 1)
    ensures forall a | a != e.attemptId :: NumbersOf(log + [EventRecord(|log| + 1, e)], a) == NumbersOf(log, a)
  {
    hide NumbersOf;
    NumberIsListed(log, e.attemptId, e.number);
    EarlierEventHasNumber(log, e);
    var r := EventRecord(|log| + 1, e);
    NumbersAppend(log, r, e.attemptId);
    forall a | a != e.attemptId
      ensures NumbersOf(log + [r], a) == NumbersOf(log, a)
    {
      NumbersAppend(log, r, a);
    }
  }

  /** What the artifact collector does with an artifact event. */
  datatype Collector = NotConfigured | Rejects | Collects(payload: string)

  datatype SinkError = IdentityError | CollectorError | RepositoryError(error: Error)
  datatype Delivery = Delivered | Raised(error: SinkError)

  predicate Belongs(task: Task, e: EventEnvelope) {
    e.runId == task.runId && e.attemptId == task.attemptId && e.engine == task.engine
  }

  predicate IsArtifact(e: EventEnvelope) {
    e.kind == ArtifactEvent || e.kind == ScreenshotEvent
  }

  /** The event as it is appended: an artifact carries what the collector made of it. */
  function Collected(e: EventEnvelope, collector: Collector): (c: EventEnvelope)
    ensures c == e.(payload := c.payload)
  {
    if IsArtifact(e) && collector.Collects? then e.(payload := collector.payload) else e
  }

  /** The lease renewal a heartbeat brings; other events leave the tables alone. */
  function Renewal(s: Store, task: Task, runner: string, leaseSeconds: int, e: EventEnvelope, now: int)
    : Result<Store, Error>
  {
    if e.kind == HeartbeatEvent then RenewLease(s, task.attemptId, runner, leaseSeconds, now) else Ok(s)
  }

  /** The sink a manager hands to its executor: validate, collect, renew the lease on a heartbeat, append. */
  method PersistEvent(repo: RunRepository, task: Task, runner: string, leaseSeconds: int, collector: Collector,
                      e: EventEnvelope, now: int)
    returns (d: Delivery)
    requires repo.Valid()
    modifies repo
    ensures repo.Valid() && repo.runs == old(repo.runs)
    ensures var renewed := Renewal(old(repo.Contents()), task, runner, leaseSeconds, e, now);
            && repo.Contents() == (if Belongs(task, e) && renewed.Ok? then renewed.value else old(repo.Contents()))
            && (d.Delivered? <==> && Belongs(task, e) && (IsArtifact(e) ==> collector.Collects?) && renewed.Ok?
                                  && Append(renewed.value, old(repo.log), Collected(e, collector)).Ok?)
    ensures d.Raised? ==> repo.log == old(repo.log)
    ensures d.Delivered? ==> Append(repo.Contents(), old(repo.log), Collected(e, collector)) == Ok(repo.log)
  {
    hide RenewLease, Append, LogOk, Indexed;
    if e.runId != task.runId || e.attemptId != task.attemptId || e.engine != task.engine {
      return Raised(IdentityError);
    }
    var event := e;
    if e.kind == ArtifactEvent || e.kind == ScreenshotEvent {
      match collector
      case NotConfigured => return Raised(IdentityError);
      case Rejects => return Raised(CollectorError);
      case Collects(payload) => event := e.(payload := payload);
    }
    if e.kind == HeartbeatEvent {
      var renewed := repo.RenewAttemptLease(task.attemptId, runner, leaseSeconds, now);
      if renewed.Err? {
        return Raised(RepositoryError(renewed.error));
      }
    }
    var appended := repo.AppendEvent(event);
    d := if appended.Ok? then Delivered else Raised(RepositoryError(appended.error));
  }

  class RunnerAgent {
    const task: Task
    var number: nat

    constructor (task: Task)
      ensures this.task == task && number == 0
    {
      this.task := task;
      number := 0;
    }

    /**
      Emits one event. A delivery that raises leaves the number to the next
      emission, so the attempt's numbers in the log never skip or repeat.
     */
    method Emit(repo: RunRepository, runner: string, leaseSeconds: int, collector: Collector,
                id: EventId, kind: EventKind, payload: string, now: int) returns (d: Delivery)
      requires repo.Valid() && InStep(repo.log, task.attemptId, number)
      modifies this`number, repo
      ensures repo.Valid() && InStep(repo.log, task.attemptId, number)
      ensures d.Raised? ==> number == old(number) && repo.log == old(repo.log)
      ensures d.Delivered? ==>
                && number == old(number) + 1 && |repo.log| == |old(repo.log)| + 1
                && repo.log[..|old(repo.log)|] == old(repo.log)
                && var e := repo.log[|old(repo.log)|].event;
                   e.id == id && e.attemptId == task.attemptId && e.number == old(number) && e.kind == kind
      ensures forall a | a != task.attemptId :: NumbersOf(repo.log, a) == NumbersOf(old(repo.log), a)
    {
      hide Renewal, Append, LogOk, Indexed, NumbersOf;
      var event := EventEnvelope(id, task.runId, task.attemptId, task.engine, number, now, kind, payload);
      d := PersistEvent(repo, task, runner, leaseSeconds, collector, event, now);
      if d.Delivered? {
        NextNumberIsFree(repo.Contents(), old(repo.log), Collected(event, collector));
        number := number + 1;
      }
    }
  }

  // ------------------------------------------------- any number of agents

  /** One emission: the state of the tables it meets, and whether the sink raises before the append. */
  datatype Emission = Emission(store: Store, event: EventEnvelope, sinkRaises: bool)

  datatype Agents = Agents(log: Log, next: map<AttemptId, nat>)

  /** The agent of the event's attempt, if there is one, emits the event under its own next number. */
  function EmitOne(g: Agents, x: Emission): Agents {
    if x.event.attemptId !in g.next then g
    else
      var a := x.event.attemptId;
      var appended := Append(x.store, g.log, x.event.(number := g.next[a]));
      if x.sinkRaises || appended.Err? then g
      else Agents(appended.value, g.next[a := g.next[a] + 1])
  }

  function EmitAll(g: Agents, xs: seq<Emission>): Agents
    decreases |xs|
  {
    if xs == [] then g else EmitAll(EmitOne(g, xs[0]), xs[1..])
  }

  /** However agents and their threads interleave, each attempt's events carry 0, 1, 2, ... in cursor order. */
  lemma {:induction false} NumbersStayInStep(g: Agents, xs: seq<Emission>)
    requires LogOk(g.log) && forall a | a in g.next :: InStep(g.log, a, g.next[a])
    ensures LogOk(EmitAll(g, xs).log) && EmitAll(g, xs).next.Keys == g.next.Keys
    ensures forall a | a in EmitAll(g, xs).next :: InStep(EmitAll(g, xs).log, a, EmitAll(g, xs).next[a])
    decreases |xs|
  {
    if xs != [] {
      var x, h := xs[0], EmitOne(g, xs[0]);
      if h != g {
        var e := x.event.(number := g.next[x.event.attemptId]);
        AppendKeepsLog(x.store, g.log, e);
        NextNumberIsFree(x.store, g.log, e);
      }
      hide LogOk, Append;
      NumbersStayInStep(h, xs[1..]);
    }
  }
}
