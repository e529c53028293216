/**
  How a load test run ends: exactly when it succeeds, exactly when the service
  leaves it RUNNING, and that only the start-up recovery then moves it.
 */
module LoadEndings {
  import opened Wrappers
  import opened LoadMetrics
  import opened LoadResponses
  import opened LoadEngine
  import opened LoadRuns

  // ------------------------------------------------------------------ runs left behind

  lemma EscapedStep(t: Test, s: System, e: Event)
    requires Inv(t, s) && s.stage.Escaped?
    ensures var s' := Step(t, s, e);
            && s'.stage.Escaped?
            && s'.run == if e.Recover? then UpdatedRun(s.run, FAILED, s.run.reported) else s.run
  {
    hide ClaimsOk, NumbersOk, ResponsesOk, WorkersOk, Balanced, Hits, WorkStep;
  }

  /** A run the service has left behind reads RUNNING until a recovery, and FAILED from then on. */
  lemma {:induction false} LeftUntilRecovered(t: Test, s: System, events: seq<Event>)
    requires Inv(t, s) && s.stage.Escaped? && s.run.status == RUNNING
    ensures After(t, s, events).stage.Escaped?
    ensures After(t, s, events).run.status == if Recover in events then FAILED else RUNNING
    decreases |events|
  {
    hide Inv, Step;
    if events != [] {
      var s' := Step(t, s, events[0]);
      EscapedStep(t, s, events[0]);
      StepKeepsInv(t, s, events[0]);
      if events[0].Recover? {
        ReportsOnlyGrow(t, s', events[1..]);
        StaysEscaped(t, s', events[1..]);
      } else {
        LeftUntilRecovered(t, s', events[1..]);
      }
    }
  }

  lemma {:induction false} StaysEscaped(t: Test, s: System, events: seq<Event>)
    requires Inv(t, s) && s.stage.Escaped?
    ensures After(t, s, events).stage.Escaped?
    decreases |events|
  {
    hide Inv, Step;
    if events != [] {
      EscapedStep(t, s, events[0]);
      StepKeepsInv(t, s, events[0]);
      StaysEscaped(t, Step(t, s, events[0]), events[1..]);
    }
  }

  // ------------------------------------------------------------------ after a cancellation

  /** Once a run is cancelled its workers publish nothing more: only the service and a recovery still write it. */
  lemma {:induction false} SilentAfterCancel(t: Test, s: System, events: seq<Event>)
    requires Inv(t, s) && s.cancelled && forall e | e in events :: !e.Close? && !e.Recover?
    ensures After(t, s, events).run == s.run && After(t, s, events).cancelled
    decreases |events|
  {
    hide Inv, Step;
    if events != [] {
      SilentStep(t, s, events[0]);
      StepKeepsInv(t, s, events[0]);
      SilentAfterCancel(t, Step(t, s, events[0]), events[1..]);
    }
  }

  lemma SilentStep(t: Test, s: System, e: Event)
    requires Inv(t, s) && s.cancelled && !e.Close? && !e.Recover?
    ensures Step(t, s, e).run == s.run && Step(t, s, e).cancelled
  {
    hide ClaimsOk, NumbersOk, TallyOk, ResponsesOk, WorkersOk, StageOk, Recorded, Accepted, Drained, Numbers;
  }

  /** As many workers are started as the least of the limits allows, and never none. */
  lemma WorkersAreTheLeast(t: Test, s: System)
    requires ValidTest(t) && s.stage.Opening? && |s.tally.targets| == t.targets
    ensures var n := |Step(t, s, Open(false, false)).pcs|;
            && 1 <= n <= t.concurrency && n <= t.maxWorkers && (t.mode.Count? ==> n <= t.requestCount)
            && (n == t.concurrency || n == t.maxWorkers || (t.mode.Count? && n == t.requestCount))
  {
  }

  // ------------------------------------------------------------------ the service among other events

  /** The steps of the service itself, without workers and cancellations. */
  function ServiceEvents(events: seq<Event>): seq<Event> {
    if events == [] then []
    else if events[0].Work? || events[0].Cancel? then ServiceEvents(events[1..])
    else [events[0]] + ServiceEvents(events[1..])
  }

  /** Whether a cancellation has arrived when the service first tries to close the run. */
  predicate CancelledByClose(cancelled: bool, events: seq<Event>)
    decreases |events|
  {
    if events == [] || events[0].Close? then cancelled
    else CancelledByClose(cancelled || events[0].Cancel?, events[1..])
  }

  /** Workers are gone or not there yet. */
  ghost predicate Quiet(t: Test, s: System) {
    Inv(t, s) && AllHalted(s)
  }

  lemma QuietStep(t: Test, s: System, e: Event)
    requires Quiet(t, s) && (e.Work? || e.Cancel?)
    ensures Step(t, s, e) == s.(cancelled := s.cancelled || e.Cancel?) && Quiet(t, Step(t, s, e))
  {
    StepKeepsInv(t, s, e);
    hide Inv;
    if e.Work? && e.w < |s.pcs| {
      assert s.pcs[e.w] in s.pcs;
    }
  }

  /** Up to the service's next step only the cancellation can change. */
  lemma {:induction false} NextServiceStep(t: Test, s: System, events: seq<Event>) returns (c: bool, rest: seq<Event>)
    requires Quiet(t, s) && ServiceEvents(events) != []
    ensures var e := ServiceEvents(events)[0];
            && (s.cancelled ==> c) && Inv(t, s.(cancelled := c)) && Inv(t, Step(t, s.(cancelled := c), e))
            && After(t, s, events) == After(t, Step(t, s.(cancelled := c), e), rest)
            && ServiceEvents(rest) == ServiceEvents(events)[1..]
            && CancelledByClose(s.cancelled, events) == if e.Close? then c else CancelledByClose(c, rest)
    decreases |events|
  {
    hide Step, Inv;
    if events[0].Work? || events[0].Cancel? {
      QuietStep(t, s, events[0]);
      c, rest := NextServiceStep(t, Step(t, s, events[0]), events[1..]);
    } else {
      c, rest := s.cancelled, events[1..];
      assert s.(cancelled := c) == s;
      StepKeepsInv(t, s, events[0]);
    }
  }

  lemma {:induction false} NoServiceStep(t: Test, s: System, events: seq<Event>)
    requires Quiet(t, s) && ServiceEvents(events) == []
    ensures After(t, s, events).stage == s.stage && After(t, s, events).run == s.run
    decreases |events|
  {
    hide Step, Inv;
    if events != [] {
      QuietStep(t, s, events[0]);
      NoServiceStep(t, Step(t, s, events[0]), events[1..]);
    }
  }

  // ------------------------------------------------------------------ the exact endings

  /** What decides the ending: the stage, whether responses are waiting, and what the run reads. */
  datatype View = View(stage: Stage, waiting: bool, status: RunStatus)

  function ViewOf(s: System): View {
    View(s.stage, s.buffer.pending != [], s.run.status)
  }

  function FlushView(v: View, storeFails: bool): View {
    if !v.stage.Flushing? then v
    else if v.waiting && storeFails then View(if v.stage.raised then Escaped else Flushing(true), false, v.status)
    else View(Closing(v.stage.raised), false, v.status)
  }

  function CloseView(v: View, updateFails: bool, cancelled: bool): View {
    if !v.stage.Closing? then v
    else if updateFails then v.(stage := if v.stage.raised then Escaped else Flushing(true))
    else v.(stage := Finished,
            status := if v.status != RUNNING then v.status
                      else if v.stage.raised || cancelled then FAILED
                      else SUCCEEDED)
  }

  lemma StepView(t: Test, s: System, e: Event)
    requires Quiet(t, s) && (e.Flush? || e.Close?)
    ensures Quiet(t, Step(t, s, e))
    ensures e.Flush? ==> ViewOf(Step(t, s, e)) == FlushView(ViewOf(s), e.storeFails)
    ensures e.Close? ==> ViewOf(Step(t, s, e)) == CloseView(ViewOf(s), e.updateFails, s.cancelled)
  {
    StepKeepsInv(t, s, e);
    hide ClaimsOk, NumbersOk, ResponsesOk, WorkersOk, Balanced, Hits, Drained;
    DrainedKeepsNumbers(s.buffer);
  }

  /** A flush or close of the service, somewhere among other events. */
  lemma NextView(t: Test, s: System, events: seq<Event>) returns (c: bool, s': System, rest: seq<Event>)
    requires Quiet(t, s) && ServiceEvents(events) != []
    requires (ServiceEvents(events)[0].Flush? || ServiceEvents(events)[0].Close?)
    ensures var e := ServiceEvents(events)[0];
            && Quiet(t, s') && After(t, s, events) == After(t, s', rest)
            && ServiceEvents(rest) == ServiceEvents(events)[1..]
            && s'.cancelled == c
            && CancelledByClose(s.cancelled, events) == (if e.Close? then c else CancelledByClose(c, rest))
            && ViewOf(s') == if e.Flush? then FlushView(ViewOf(s), e.storeFails)
                             else CloseView(ViewOf(s), e.updateFails, c)
  {
    hide Inv, Step;
    c, rest := NextServiceStep(t, s, events);
    StepView(t, s.(cancelled := c), ServiceEvents(events)[0]);
    KeepsCancelled(t, s.(cancelled := c), ServiceEvents(events)[0]);
    s' := Step(t, s.(cancelled := c), ServiceEvents(events)[0]);
  }

  lemma KeepsCancelled(t: Test, s: System, e: Event)
    requires Inv(t, s) && (e.Flush? || e.Close?)
    ensures Step(t, s, e).cancelled == s.cancelled
  {
    hide Inv;
  }

  /** The service's five last steps, with the errors it meets; steps that do not apply do nothing. */
  function LastSteps(flushFails: bool, again: bool, updateFails: bool, more: bool, updateFailsAgain: bool): seq<Event> {
    [Flush(flushFails), Flush(again), Close(updateFails), Flush(more), Close(updateFailsAgain)]
  }

  /** The service's step into its last phase. */
  predicate EntersLastPhase(s: System, first: Event) {
    || (s.stage.Opening? && first.Open? && (first.readFails || first.raises))
    || (s.stage.Working? && AllHalted(s) && first.Join?)
  }

  lemma FirstView(t: Test, s: System, events: seq<Event>) returns (s': System, rest: seq<Event>)
    requires Inv(t, s) && ServiceEvents(events) != [] && EntersLastPhase(s, ServiceEvents(events)[0])
    ensures var first := ServiceEvents(events)[0];
            && Quiet(t, s') && After(t, s, events) == After(t, s', rest)
            && ServiceEvents(rest) == ServiceEvents(events)[1..]
            && CancelledByClose(s.cancelled, events) == CancelledByClose(s'.cancelled, rest)
            && ViewOf(s') == View(if first.Open? && first.readFails then Escaped
                                  else Flushing(first.Open? || Raised in s.pcs),
                                  s.buffer.pending != [], s.run.status)
  {
    hide ClaimsOk, NumbersOk, ResponsesOk, WorkersOk, Balanced, Hits;
    var c;
    c, rest := NextServiceStep(t, s, events);
    s' := Step(t, s.(cancelled := c), ServiceEvents(events)[0]);
  }

  /** Whether the five last steps leave the run RUNNING. */
  predicate LeavesRunning(gone: bool, handling: bool, refused: bool, updateFails: bool, updateFailsAgain: bool) {
    gone || (handling && refused) || (updateFails && (handling || refused || updateFailsAgain))
  }

  /** From the first attempt to close the run. */
  lemma CloseEnds(t: Test, s: System, events: seq<Event>, updateFails: bool, more: bool, updateFailsAgain: bool)
    requires Quiet(t, s) && ServiceEvents(events) == [Close(updateFails), Flush(more), Close(updateFailsAgain)]
    requires s.run.status == RUNNING && s.buffer.pending == [] && (s.stage.Closing? || s.stage.Escaped?)
    ensures var gone := s.stage.Escaped?;
            var handling := s.stage.Closing? && s.stage.raised;
            var left := LeavesRunning(gone, handling, false, updateFails, updateFailsAgain);
            && (After(t, s, events).stage.Escaped? <==> left)
            && After(t, s, events).run.status
               == if left then RUNNING
                  else if handling || updateFails || CancelledByClose(s.cancelled, events) then FAILED
                  else SUCCEEDED
  {
    hide Inv, Step, CancelledByClose, ServiceEvents;
    var c, s', rest := NextView(t, s, events);
    c, s', rest := NextView(t, s', rest);
    c, s', rest := NextView(t, s', rest);
    NoServiceStep(t, s', rest);
  }

  /** Two flushes, the second of which does nothing unless the first one failed. */
  lemma FlushEnds(t: Test, s: System, events: seq<Event>, flushFails: bool, again: bool, tail: seq<Event>)
    returns (s': System, rest: seq<Event>)
    requires Quiet(t, s) && ServiceEvents(events) == [Flush(flushFails), Flush(again)] + tail
    requires s.stage.Flushing? || s.stage.Escaped?
    ensures var refused := s.buffer.pending != [] && flushFails;
            && Quiet(t, s') && After(t, s, events) == After(t, s', rest) && ServiceEvents(rest) == tail
            && s'.run.status == s.run.status
            && CancelledByClose(s.cancelled, events) == CancelledByClose(s'.cancelled, rest)
            && (if s.stage.Escaped? || (s.stage.raised && refused) then s'.stage.Escaped?
                else s'.stage == Stage.Closing(s.stage.raised || refused))
            && (s.stage.Flushing? ==> s'.buffer.pending == [])
  {
    hide Inv, Step, CancelledByClose, ServiceEvents;
    var c;
    c, s', rest := NextView(t, s, events);
    c, s', rest := NextView(t, s', rest);
  }

  /**
    The exact ending, with any cancellations and stray worker steps in between.
    The service leaves the run RUNNING if and only if it could not read the run
    at all, or its error handler met an error of its own: the flush of waiting
    responses or the last update. Otherwise the run succeeds exactly if nothing
    raised, the store took everything, and nobody cancelled before the last update.
   */
  lemma EndsExactly(t: Test, s: System, events: seq<Event>, first: Event,
                    flushFails: bool, again: bool, updateFails: bool, more: bool, updateFailsAgain: bool)
    requires Inv(t, s) && s.run.status == RUNNING && EntersLastPhase(s, first)
    requires ServiceEvents(events) == [first] + LastSteps(flushFails, again, updateFails, more, updateFailsAgain)
    ensures var gone := first.Open? && first.readFails;
            var handling := first.Open? || Raised in s.pcs;
            var refused := s.buffer.pending != [] && flushFails;
            var left := LeavesRunning(gone, handling, refused, updateFails, updateFailsAgain);
            && (After(t, s, events).stage.Escaped? <==> left)
            && After(t, s, events).run.status
               == if left then RUNNING
                  else if handling || refused || updateFails || CancelledByClose(s.cancelled, events) then FAILED
                  else SUCCEEDED
  {
    hide Inv, Step, EntersLastPhase, CancelledByClose, ServiceEvents;
    var tail := [Close(updateFails), Flush(more), Close(updateFailsAgain)];
    var s', rest := FirstView(t, s, events);
    assert ServiceEvents(rest) == [Flush(flushFails), Flush(again)] + tail;
    s', rest := FlushEnds(t, s', rest, flushFails, again, tail);
    NothingWaits(t, s');
    CloseEnds(t, s', rest, updateFails, more, updateFailsAgain);
  }

  lemma NothingWaits(t: Test, s: System)
    requires Inv(t, s) && (s.stage.Closing? || s.stage.Escaped?)
    ensures s.buffer.pending == []
  {
    hide ClaimsOk, NumbersOk, ResponsesOk, WorkersOk, TallyOk;
  }
}
