/**
  The final report of a load test against the responses it stored: whatever the
  interleaving, the metrics describe exactly what the stored responses say.
 */
module LoadReports {
  import opened Wrappers
  import opened LoadMetrics
  import opened LoadResponses
  import opened LoadEngine
  import opened LoadRuns

  /** What was observed in all of the requests, and in those of one target. */
  function Everything(made: seq<Sample>): seq<Observation> {
    if made == [] then [] else Everything(made[..|made| - 1]) + [made[|made| - 1].o]
  }

  function AtTarget(made: seq<Sample>, target: nat): seq<Observation> {
    if made == [] then []
    else AtTarget(made[..|made| - 1], target)
         + if made[|made| - 1].target == target then [made[|made| - 1].o] else []
  }

  /** The response reports the request with its number. */
  predicate Copies(made: seq<Sample>, r: Response) {
    1 <= r.sequence <= |made| && made[r.sequence - 1] == Sample(r.target, r.o)
  }

  ghost predicate AllCopy(made: seq<Sample>, s: System) {
    && (forall r | r in s.buffer.stored || r in s.buffer.pending :: Copies(made, r))
    && forall pc | pc in s.pcs && pc.Responding? :: Copies(made, pc.response)
  }

  ghost predicate Tallies(t: Test, made: seq<Sample>, tally: Tally) {
    && |tally.targets| == t.targets && tally.all.total == |made|
    && Describes(tally.all, Everything(made))
    && forall i: nat | i < t.targets :: Describes(tally.targets[i], AtTarget(made, i))
  }

  ghost predicate Matches(t: Test, made: seq<Sample>, s: System) {
    AllCopy(made, s) && Tallies(t, made, s.tally)
  }

  // ------------------------------------------------------------------ every step keeps them together

  lemma TallyOneMore(t: Test, made: seq<Sample>, tally: Tally, target: nat, o: Observation, draw: nat,
                     targetDraw: nat)
    requires Tallies(t, made, tally) && target < t.targets
    ensures Tallies(t, made + [Sample(target, o)], Recorded(tally, target, o, draw, targetDraw))
  {
    hide Describes, Added;
    var more := made + [Sample(target, o)];
    assert more[..|made|] == made;
    AddedDescribes(tally.all, Everything(made), o, draw);
    AddedDescribes(tally.targets[target], AtTarget(made, target), o, targetDraw);
    TotalGrows(tally.all, o, draw);
    var after := Recorded(tally, target, o, draw, targetDraw);
    forall i: nat | i < t.targets
      ensures Describes(after.targets[i], AtTarget(more, i))
    {
      assert AtTarget(more, i) == if i == target then AtTarget(made, i) + [o] else AtTarget(made, i);
    }
    assert Everything(more) == Everything(made) + [o];
  }

  lemma TotalGrows(v: Values, o: Observation, draw: nat)
    ensures Added(v, o, draw).total == v.total + 1
  {
  }

  /** A counted request is the one its response will report. */
  lemma CountedMatches(t: Test, made: seq<Sample>, s: System, w: nat, index: nat, world: World)
    requires ValidTest(t) && w < |s.pcs| && |s.tally.targets| == t.targets && Matches(t, made, s)
    ensures Matches(t, made + [Sample(index % t.targets, world.o)], Counted(t, s, w, index, world))
  {
    hide Tallies, Recorded, Describes;
    var target := index % t.targets;
    TallyTotal(t, made, s.tally);
    TallyOneMore(t, made, s.tally, target, world.o, world.draw, world.targetDraw);
    TallyTotal(t, made + [Sample(target, world.o)], Recorded(s.tally, target, world.o, world.draw, world.targetDraw));
    var s' := Counted(t, s, w, index, world);
    forall pc | pc in s'.pcs && pc.Responding?
      ensures Copies(made + [Sample(target, world.o)], pc.response)
    {
      assert pc == s'.pcs[w] || pc in s.pcs;
    }
  }

  lemma TallyTotal(t: Test, made: seq<Sample>, tally: Tally)
    requires Tallies(t, made, tally)
    ensures tally.all.total == |made| && |tally.targets| == t.targets
  {
  }

  lemma RespondedCopies(made: seq<Sample>, s: System, w: nat, storeFails: bool)
    requires w < |s.pcs| && s.pcs[w].Responding? && AllCopy(made, s) && InOrder(s.buffer.stored)
    ensures AllCopy(made, Responded(s, w, s.pcs[w].response, storeFails))
  {
    hide Accepted, Numbers, Copies, InOrder;
    AcceptedKeepsNumbers(s.buffer, s.pcs[w].response);
    var s' := Responded(s, w, s.pcs[w].response, storeFails);
    forall pc | pc in s'.pcs && pc.Responding?
      ensures pc in s.pcs
    {
    }
  }

  lemma MovedCopies(made: seq<Sample>, s: System, s': System, w: nat)
    requires w < |s.pcs| == |s'.pcs| && s'.pcs == s.pcs[w := s'.pcs[w]] && !s'.pcs[w].Responding?
    requires s'.buffer == s.buffer && AllCopy(made, s)
    ensures AllCopy(made, s')
  {
    hide Copies;
    forall pc | pc in s'.pcs && pc.Responding?
      ensures pc in s.pcs
    {
    }
  }

  lemma WorkMatches(t: Test, made: seq<Sample>, s: System, w: nat, world: World) returns (more: seq<Sample>)
    requires ValidTest(t) && w < |s.pcs| && |s.tally.targets| == t.targets && Matches(t, made, s)
    requires InOrder(s.buffer.stored)
    ensures Matches(t, more, WorkStep(t, s, w, world))
  {
    hide WorkStep, Tallies, AllCopy, Counted, Responded, InOrder;
    more := made;
    if s.pcs[w].Requesting? {
      RequestingStep(t, s, w, world);
      if world.raises {
        MovedCopies(made, s, WorkStep(t, s, w, world), w);
      } else {
        more := made + [Sample(s.pcs[w].index % t.targets, world.o)];
        CountedMatches(t, made, s, w, s.pcs[w].index, world);
      }
    } else if s.pcs[w].Responding? {
      RespondingStep(t, s, w, world);
      RespondedChanges(s, w, s.pcs[w].response, world.storeFails);
      RespondedCopies(made, s, w, world.storeFails);
    } else {
      OtherChanges(t, s, w, world);
      MovedCopies(made, s, WorkStep(t, s, w, world), w);
    }
  }

  lemma OtherEventsMatch(t: Test, made: seq<Sample>, s: System, e: Event)
    requires ValidTest(t) && |s.tally.targets| == t.targets && AllCopy(made, s) && !e.Work?
    ensures AllCopy(made, Step(t, s, e)) && Step(t, s, e).tally == s.tally
  {
    hide Numbers, BySequence, Copies;
    if e.Flush? {
      DrainedKeepsNumbers(s.buffer);
    }
  }

  lemma StepMatches(t: Test, made: seq<Sample>, s: System, e: Event) returns (more: seq<Sample>)
    requires Inv(t, s) && Matches(t, made, s)
    ensures Matches(t, more, Step(t, s, e))
  {
    hide Tallies, AllCopy, WorkStep, ClaimsOk, NumberAt, TallyOk, ResponsesOk, WorkersOk, StageOk;
    more := made;
    if e.Work? {
      if e.w < |s.pcs| && s.stage.Working? {
        more := WorkMatches(t, made, s, e.w, e.world);
      }
    } else {
      OtherEventsMatch(t, made, s, e);
    }
  }

  lemma {:induction false} RunMatches(t: Test, made: seq<Sample>, s: System, events: seq<Event>)
    returns (more: seq<Sample>)
    requires Inv(t, s) && Matches(t, made, s)
    ensures Matches(t, more, After(t, s, events))
    decreases |events|
  {
    hide Inv, Matches, Step;
    if events == [] {
      more := made;
    } else {
      StepKeepsInv(t, s, events[0]);
      more := StepMatches(t, made, s, events[0]);
      more := RunMatches(t, more, Step(t, s, events[0]), events[1..]);
    }
  }

  lemma StartMatches(t: Test)
    requires ValidTest(t)
    ensures Matches(t, [], Start(t))
  {
    NothingDescribed();
  }

  // ------------------------------------------------------------------ main result

  function Outcomes(rs: seq<Response>): seq<Observation> {
    seq(|rs|, k requires 0 <= k < |rs| => rs[k].o)
  }

  /** The outcomes of one target's responses, in order. */
  function OutcomesAt(rs: seq<Response>, target: nat): seq<Observation> {
    if rs == [] then []
    else OutcomesAt(rs[..|rs| - 1], target) + if rs[|rs| - 1].target == target then [rs[|rs| - 1].o] else []
  }

  lemma {:induction false} StoredAreMade(made: seq<Sample>, rs: seq<Response>, target: nat)
    requires |rs| == |made| && forall k | 0 <= k < |rs| :: made[k] == Sample(rs[k].target, rs[k].o)
    ensures Everything(made) == Outcomes(rs) && AtTarget(made, target) == OutcomesAt(rs, target)
  {
    if rs != [] {
      StoredAreMade(made[..|made| - 1], rs[..|rs| - 1], target);
    }
  }

  /**
    However a run ends, unless the store failed, the final metrics describe
    exactly the stored responses: overall and target by target, every count,
    extreme, sum and sample is that of the responses a reader will see.
   */
  lemma ReportDescribesResponses(t: Test, events: seq<Event>)
    requires ValidTest(t) && (Ran(t, events).stage.Finished? || Ran(t, events).stage.Escaped?)
    requires Ran(t, events).lost == multiset{}
    ensures var s := Ran(t, events);
            && |s.tally.targets| == t.targets
            && Describes(s.tally.all, Outcomes(s.buffer.stored))
            && forall i: nat | i < t.targets :: Describes(s.tally.targets[i], OutcomesAt(s.buffer.stored, i))
  {
    hide Ran, Describes, Inv, After, Start;
    StartOk(t);
    StartMatches(t);
    var s := Ran(t, events);
    RanIsAfter(t, events);
    var made := RunMatches(t, [], Start(t), events);
    FinishedStoresAll(t, events);
    forall k | 0 <= k < |made|
      ensures made[k] == Sample(s.buffer.stored[k].target, s.buffer.stored[k].o)
    {
      assert s.buffer.stored[k] in s.buffer.stored;
    }
    forall i: nat | i < t.targets
      ensures Everything(made) == Outcomes(s.buffer.stored)
      ensures AtTarget(made, i) == OutcomesAt(s.buffer.stored, i)
    {
      StoredAreMade(made, s.buffer.stored, i);
    }
    StoredAreMade(made, s.buffer.stored, 0);
  }

  lemma RanIsAfter(t: Test, events: seq<Event>)
    requires ValidTest(t)
    ensures Inv(t, Start(t)) && Ran(t, events) == After(t, Start(t), events)
  {
    StartOk(t);
  }

  lemma {:induction false} SelectionCounts(rs: seq<Response>)
    ensures |Selected(rs, Some(true))| == Successes(Outcomes(rs))
    ensures |Selected(rs, Some(false))| == |rs| - Successes(Outcomes(rs))
  {
    if rs != [] {
      SelectionCounts(rs[..|rs| - 1]);
      assert Outcomes(rs)[..|rs| - 1] == Outcomes(rs[..|rs| - 1]);
    }
  }

  /** Listing a run's successful, or failed, responses yields as many as its final metrics report. */
  lemma FiltersAgreeWithReport(t: Test, events: seq<Event>)
    requires ValidTest(t) && (Ran(t, events).stage.Finished? || Ran(t, events).stage.Escaped?)
    requires Ran(t, events).lost == multiset{}
    ensures var s := Ran(t, events);
            && |Selected(s.buffer.stored, Some(true))| == s.tally.all.successful
            && |Selected(s.buffer.stored, Some(false))| == s.tally.all.failed
  {
    hide Ran;
    ReportDescribesResponses(t, events);
    SelectionCounts(Ran(t, events).buffer.stored);
  }
}
