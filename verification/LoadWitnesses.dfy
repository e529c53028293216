/** Runs of the load test engine that come to each of the endings. */
module LoadWitnesses {
  import opened Wrappers
  import opened LoadMetrics
  import opened LoadResponses
  import opened LoadEngine
  import opened LoadRuns
  import opened LoadEndings

  const CALM := World(false, false, Observation(1.0, true, Some(200), None), 0, 0, false, false, false, false)

  /** Worker 0 is at the given place, the workers up to `k` are done, and the others have not begun. */
  predicate Row(t: Test, s: System, lead: Pc, k: nat) {
    && |s.pcs| == WorkerCount(t) && 1 <= k <= |s.pcs| && s.pcs[0] == lead
    && (forall w | 1 <= w < k :: s.pcs[w] == Returned) && (forall w | k <= w < |s.pcs| :: s.pcs[w] == Looping)
    && s.stage.Working? && s.run.status == RUNNING
  }

  predicate Leads(t: Test, s: System, lead: Pc, next: nat) {
    Row(t, s, lead, 1) && s.next == next && !s.cancelled
  }

  lemma RanOneMore(t: Test, events: seq<Event>, e: Event)
    requires ValidTest(t)
    ensures Ran(t, events + [e]) == Step(t, Ran(t, events), e)
  {
    StartOk(t);
    AfterAppend(t, Start(t), events, [e]);
    hide Inv, Step, Start;
    StepKeepsInv(t, Ran(t, events), e);
    assert [e][1..] == [];
  }

  lemma LeadSteps(t: Test, events: seq<Event>, world: World) returns (longer: seq<Event>)
    requires ValidTest(t) && |Ran(t, events).pcs| > 0 && Ran(t, events).stage.Working?
    ensures Ran(t, longer) == WorkStep(t, Ran(t, events), 0, world)
  {
    hide WorkStep, Ran, Inv;
    longer := events + [Work(0, world)];
    RanOneMore(t, events, Work(0, world));
  }

  lemma Opened(t: Test) returns (events: seq<Event>)
    requires ValidTest(t)
    ensures Leads(t, Ran(t, events), Looping, 0) && Ran(t, events).buffer.pending == []
  {
    events := [] + [Open(false, false)];
    RanOneMore(t, [], Open(false, false));
    assert Ran(t, []) == Start(t);
  }

  /** Worker 0 claims the next index. */
  lemma LeadClaims(t: Test, events: seq<Event>, n: nat) returns (longer: seq<Event>)
    requires ValidTest(t) && t.mode.Count? && n < t.requestCount && Leads(t, Ran(t, events), Looping, n)
    ensures Leads(t, Ran(t, longer), Requesting(n), n + 1) && Ran(t, longer).buffer == Ran(t, events).buffer
  {
    hide Ran, Inv, Counted, Responded, Published;
    longer := LeadSteps(t, events, CALM);
    assert Leads(t, Ran(t, longer), Claiming, n);
    longer := LeadSteps(t, longer, CALM);
  }

  lemma BufferedFirst(b: Buffered, r: Response)
    ensures b.pending == [] ==> Accepted(b, r).pending == [r]
  {
  }

  /** Worker 0 requests its index and hands over the response. */
  lemma LeadAnswers(t: Test, events: seq<Event>, n: nat) returns (longer: seq<Event>)
    requires ValidTest(t) && t.mode.Count? && n < t.requestCount && Leads(t, Ran(t, events), Requesting(n), n + 1)
    ensures Leads(t, Ran(t, longer), Reporting, n + 1)
    ensures Ran(t, events).buffer.pending == [] ==> Ran(t, longer).buffer.pending != []
  {
    hide Ran, Inv, Counted, Accepted, Published;
    CountedChanges(t, Ran(t, events), 0, n, CALM);
    longer := LeadSteps(t, events, CALM);
    var s := Ran(t, longer);
    BufferedFirst(s.buffer, s.pcs[0].response);
    longer := LeadSteps(t, longer, CALM);
  }

  /** Worker 0 goes on to the next index or, after the last one, returns. */
  lemma LeadGoesOn(t: Test, events: seq<Event>, n: nat) returns (longer: seq<Event>)
    requires ValidTest(t) && t.mode.Count? && n < t.requestCount && Leads(t, Ran(t, events), Reporting, n + 1)
    ensures Leads(t, Ran(t, longer), if n + 1 < t.requestCount then Looping else Returned, n + 1)
    ensures Ran(t, longer).buffer == Ran(t, events).buffer
  {
    hide Ran, Inv, Counted, Responded, Published;
    longer := LeadSteps(t, events, CALM);
    assert Leads(t, Ran(t, longer), Rechecking, n + 1);
    longer := LeadSteps(t, longer, CALM);
    if n + 1 < t.requestCount {
      assert Leads(t, Ran(t, longer), Waiting, n + 1);
      longer := LeadSteps(t, longer, CALM);
    }
  }

  lemma {:induction false} LeadServes(t: Test, n: nat) returns (events: seq<Event>)
    requires ValidTest(t) && t.mode.Count? && n <= t.requestCount
    ensures Leads(t, Ran(t, events), if n < t.requestCount then Looping else Returned, n)
    ensures n == 1 ==> Ran(t, events).buffer.pending != []
  {
    hide Ran, Inv, Leads;
    if n == 0 {
      events := Opened(t);
    } else {
      events := LeadServes(t, n - 1);
      if n == 1 { events := Opened(t); }
      events := LeadClaims(t, events, n - 1);
      events := LeadAnswers(t, events, n - 1);
      events := LeadGoesOn(t, events, n - 1);
    }
  }

  /** A worker that finds the run cancelled, or nothing left to claim, returns. */
  lemma OneRetires(t: Test, events: seq<Event>, lead: Pc, w: nat) returns (longer: seq<Event>)
    requires ValidTest(t) && Row(t, Ran(t, events), lead, w) && w < WorkerCount(t)
    requires Ran(t, events).cancelled || (t.mode.Count? && Ran(t, events).next >= t.requestCount)
    ensures Row(t, Ran(t, longer), lead, w + 1)
    ensures Ran(t, longer) == Ran(t, events).(pcs := Ran(t, longer).pcs)
  {
    hide Ran, Inv, Counted, Responded, Published;
    RanOneMore(t, events, Work(w, CALM));
    RanOneMore(t, events + [Work(w, CALM)], Work(w, CALM));
    longer := events + [Work(w, CALM)] + [Work(w, CALM)];
  }

  lemma {:induction false} OthersRetire(t: Test, events: seq<Event>, lead: Pc, k: nat) returns (longer: seq<Event>)
    requires ValidTest(t) && 1 <= k <= WorkerCount(t) && Row(t, Ran(t, events), lead, 1) && Halted(lead)
    requires Ran(t, events).cancelled || (t.mode.Count? && Ran(t, events).next >= t.requestCount)
    ensures Row(t, Ran(t, longer), lead, k) && Ran(t, longer) == Ran(t, events).(pcs := Ran(t, longer).pcs)
  {
    hide Ran, Inv, Row;
    if k == 1 {
      longer := events;
    } else {
      longer := OthersRetire(t, events, lead, k - 1);
      longer := OneRetires(t, longer, lead, k - 1);
    }
  }

  /** The last steps of the service, with nothing in between. */
  lemma Ends(t: Test, events: seq<Event>, flushFails: bool, updateFails: bool, updateFailsAgain: bool)
    returns (longer: seq<Event>)
    requires ValidTest(t) && AllHalted(Ran(t, events)) && Ran(t, events).stage.Working?
    requires Ran(t, events).run.status == RUNNING
    ensures var s := Ran(t, events);
            var refused := s.buffer.pending != [] && flushFails;
            var left := LeavesRunning(false, Raised in s.pcs, refused, updateFails, updateFailsAgain);
            && (Ran(t, longer).stage.Escaped? <==> left)
            && Ran(t, longer).run.status == if left then RUNNING
                                            else if Raised in s.pcs || refused || updateFails || s.cancelled then FAILED
                                            else SUCCEEDED
  {
    hide Inv, Start;
    var last := [Join] + LastSteps(flushFails, false, updateFails, false, updateFailsAgain);
    longer := events + last;
    StartOk(t);
    AfterAppend(t, Start(t), events, last);
    OnlyService(Ran(t, events).cancelled, flushFails, updateFails, updateFailsAgain);
    EndsExactly(t, Ran(t, events), last, Join, flushFails, false, updateFails, false, updateFailsAgain);
  }

  lemma OnlyService(cancelled: bool, flushFails: bool, updateFails: bool, updateFailsAgain: bool)
    ensures var last := [Join] + LastSteps(flushFails, false, updateFails, false, updateFailsAgain);
            ServiceEvents(last) == last && CancelledByClose(cancelled, last) == cancelled
  {
    var last := [Join] + LastSteps(flushFails, false, updateFails, false, updateFailsAgain);
    assert last[1..] == LastSteps(flushFails, false, updateFails, false, updateFailsAgain);
    assert last[1..][1..] == [Flush(false), Close(updateFails), Flush(false), Close(updateFailsAgain)];
    assert last[1..][1..][1..] == [Close(updateFails), Flush(false), Close(updateFailsAgain)];
    assert last[1..][1..][1..][1..] == [Flush(false), Close(updateFailsAgain)];
    assert last[1..][1..][1..][1..][1..] == [Close(updateFailsAgain)];
    assert last[1..][1..][1..][1..][1..][1..] == [];
  }

  /** Every worker has returned, one of them having made all requests. */
  lemma AllServed(t: Test) returns (events: seq<Event>)
    requires ValidTest(t) && t.mode.Count?
    ensures var s := Ran(t, events);
            && AllHalted(s) && Raised !in s.pcs && !s.cancelled && s.stage.Working? && s.run.status == RUNNING
  {
    hide Ran, Inv;
    events := LeadServes(t, t.requestCount);
    events := OthersRetire(t, events, Returned, WorkerCount(t));
  }

  /** Every count test, with any number of workers, has a run that comes to success. */
  lemma SomeRunSucceeds(t: Test) returns (events: seq<Event>)
    requires ValidTest(t) && t.mode.Count?
    ensures Ran(t, events).run.status == SUCCEEDED
  {
    hide Ran, Inv;
    events := AllServed(t);
    events := Ends(t, events, false, false, false);
  }

  /** All requests are made and stored, but the last update fails, and again in the handler: the run is left RUNNING. */
  lemma FailingUpdatesLeaveRunning(t: Test) returns (events: seq<Event>)
    requires ValidTest(t) && t.mode.Count?
    ensures Ran(t, events).stage.Escaped? && Ran(t, events).run.status == RUNNING
  {
    hide Ran, Inv;
    events := AllServed(t);
    events := Ends(t, events, false, true, true);
  }

  /** Index 0 is answered, the request for index 1 raises, and the last flush fails: the run is left RUNNING. */
  lemma FailingFlushLeavesRunning(t: Test) returns (events: seq<Event>)
    requires ValidTest(t) && t.mode.Count? && t.requestCount >= 2
    ensures Ran(t, events).stage.Escaped? && Ran(t, events).run.status == RUNNING
  {
    hide Ran, Inv;
    events := RaisesAfterFirst(t);
    events := OthersRetire(t, events, Raised, WorkerCount(t));
    assert Ran(t, events).pcs[0] in Ran(t, events).pcs;
    events := Ends(t, events, true, false, false);
  }

  lemma RaisesAfterFirst(t: Test) returns (events: seq<Event>)
    requires ValidTest(t) && t.mode.Count? && t.requestCount >= 2
    ensures Row(t, Ran(t, events), Raised, 1) && Ran(t, events).cancelled && Ran(t, events).buffer.pending != []
  {
    hide Ran, Inv, Counted, Responded, Published;
    events := LeadServes(t, 1);
    events := LeadClaims(t, events, 1);
    events := LeadSteps(t, events, CALM.(raises := true));
    RanOneMore(t, events, Cancel);
    events := events + [Cancel];
  }
}
