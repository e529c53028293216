/**
  What whole runs of the load test engine do: over every sequence of events,
  whatever the interleaving of workers, cancellation, errors and recovery.
 */
module LoadRuns {
  import opened Wrappers
  import opened LoadMetrics
  import opened LoadResponses
  import opened LoadEngine

  /** The state after the events. */
  function After(t: Test, s: System, events: seq<Event>): (s': System)
    requires Inv(t, s)
    ensures Inv(t, s')
    decreases |events|
  {
    if events == [] then s
    else
      StepKeepsInv(t, s, events[0]);
      After(t, Step(t, s, events[0]), events[1..])
  }

  function Ran(t: Test, events: seq<Event>): (s: System)
    requires ValidTest(t)
    ensures Inv(t, s)
  {
    StartOk(t);
    After(t, Start(t), events)
  }

  lemma {:induction false} AfterAppend(t: Test, s: System, events: seq<Event>, more: seq<Event>)
    requires Inv(t, s)
    ensures After(t, s, events + more) == After(t, After(t, s, events), more)
    decreases |events|
  {
    hide Inv, Step;
    if events == [] {
      assert events + more == more;
    } else {
      StepKeepsInv(t, s, events[0]);
      assert (events + more)[1..] == events[1..] + more;
      AfterAppend(t, Step(t, s, events[0]), events[1..], more);
    }
  }

  // ------------------------------------------------------------------ what a run conserves

  lemma {:induction false} HitsOfConcat(a: seq<nat>, b: seq<nat>, target: nat, targets: nat)
    requires targets > 0
    ensures Hits(a + b, target, targets) == Hits(a, target, targets) + Hits(b, target, targets)
  {
    if b == [] {
      assert a + b == a;
    } else {
      HitsOfConcat(a, b[..|b| - 1], target, targets);
      assert (a + b)[..|a + b| - 1] == a + b[..|b| - 1];
    }
  }

  /** Of the indices below n, those congruent to the target. */
  function Congruent(n: nat, target: nat, targets: nat): nat
    requires targets > 0
  {
    if n == 0 then 0 else Congruent(n - 1, target, targets) + (if (n - 1) % targets == target then 1 else 0)
  }

  /** The list holds 0 to n - 1, each once. */
  ghost predicate EachOnce(indices: seq<nat>, n: nat) {
    forall k: nat :: multiset(indices)[k] == if k < n then 1 else 0
  }

  lemma {:induction false} HitsAreCongruent(counted: seq<nat>, n: nat, target: nat, targets: nat)
    requires targets > 0 && EachOnce(counted, n)
    ensures |counted| == n && Hits(counted, target, targets) == Congruent(n, target, targets)
    decreases n
  {
    hide EachOnce;
    if n == 0 {
      NothingOnce(counted);
    } else {
      var a, b := TakeLargest(counted, n);
      HitsAreCongruent(a + b, n - 1, target, targets);
      HitsOfSplit(a, b, n - 1, target, targets);
    }
  }

  lemma NothingOnce(indices: seq<nat>)
    requires EachOnce(indices, 0)
    ensures indices == []
  {
    assert indices == [] || multiset(indices)[indices[0]] == 0;
  }

  lemma TakeLargest(indices: seq<nat>, n: nat) returns (a: seq<nat>, b: seq<nat>)
    requires n > 0 && EachOnce(indices, n)
    ensures indices == a + [n - 1] + b && EachOnce(a + b, n - 1)
  {
    assert multiset(indices)[n - 1] == 1;
    var i :| 0 <= i < |indices| && indices[i] == n - 1;
    a, b := indices[..i], indices[i + 1..];
    SplitAt(indices, i, a, b);
  }

  lemma SplitAt(indices: seq<nat>, i: nat, a: seq<nat>, b: seq<nat>)
    requires i < |indices| && a == indices[..i] && b == indices[i + 1..]
    ensures indices == a + [indices[i]] + b
    ensures forall k: nat :: multiset(a + b)[k] == multiset(indices)[k] - (if k == indices[i] then 1 else 0)
  {
    assert indices == a + [indices[i]] + b;
  }

  lemma HitsOfSplit(a: seq<nat>, b: seq<nat>, index: nat, target: nat, targets: nat)
    requires targets > 0
    ensures Hits(a + [index] + b, target, targets)
         == Hits(a + b, target, targets) + (if index % targets == target then 1 else 0)
  {
    HitsOfConcat(a, b, target, targets);
    HitsOfConcat(a + [index], b, target, targets);
    HitsOfConcat(a, [index], target, targets);
    assert Hits([index][..0], target, targets) == 0;
  }

  /**
    However a run ends, closed or not, unless the store failed, its responses carry the
    numbers 1 to the total, each once and in order, each naming the target of
    the index counted at that place.
   */
  lemma FinishedStoresAll(t: Test, events: seq<Event>)
    requires ValidTest(t) && (Ran(t, events).stage.Finished? || Ran(t, events).stage.Escaped?)
    requires Ran(t, events).lost == multiset{}
    ensures var s := Ran(t, events);
            && |s.buffer.stored| == |s.counted| == s.tally.all.total
            && forall k | 0 <= k < |s.counted| ::
                 s.buffer.stored[k].sequence == k + 1 && s.buffer.stored[k].target == s.counted[k] % t.targets
  {
    hide Numbers, Holders, Balanced, Hits, Ran, UpTo, ClaimAt;
    var s := Ran(t, events);
    EmptyNumbers();
    forall k: nat ensures Numbers(s.buffer.stored)[k] == UpTo(|s.counted|)[k] {
      NoHolders(NumberOf, s.pcs, k);
      UpToHolds(|s.counted|, k);
      assert NumberAt(s, k);
    }
    assert Numbers(s.buffer.stored) == UpTo(|s.counted|);
    OrderedNumbersCount(s.buffer.stored, |s.counted|);
    forall k | 0 <= k < |s.counted| ensures s.buffer.stored[k].target == s.counted[k] % t.targets {
      assert s.buffer.stored[k] in s.buffer.stored;
    }
  }

  /**
    A run that reports success lost nothing: every index handed out was
    requested and counted once, each target was hit once per index congruent to
    it, the final metrics cover all of it, and a count run made exactly the
    configured number of requests. Any interleaving, any number of workers.
   */
  lemma SuccessIsExact(t: Test, events: seq<Event>)
    requires ValidTest(t) && Ran(t, events).run.status == SUCCEEDED
    ensures var s := Ran(t, events); var n := s.next;
            && (t.mode.Count? ==> n == t.requestCount)
            && EachOnce(s.counted, n) && s.lost == multiset{} && s.stage.Finished?
            && s.run.reported == s.tally.all.total == |s.buffer.stored| == n
            && (forall k | 0 <= k < n :: s.buffer.stored[k].sequence == k + 1)
            && forall i: nat | i < t.targets :: s.tally.targets[i].total == Congruent(n, i, t.targets)
  {
    hide Numbers, Holders, Balanced, Hits, InOrder, Ran, NumberAt;
    var s := Ran(t, events);
    forall k: nat ensures multiset(s.counted)[k] == if k < s.next then 1 else 0 {
      NoHolders(ClaimOf, s.pcs, k);
      assert ClaimAt(s, k);
    }
    FinishedStoresAll(t, events);
    forall i: nat | i < t.targets ensures s.tally.targets[i].total == Congruent(s.next, i, t.targets) {
      HitsAreCongruent(s.counted, s.next, i, t.targets);
    }
    HitsAreCongruent(s.counted, s.next, 0, t.targets);
  }

  /** Read page by page after success, the responses carry 1 to the request count, each once and in order. */
  lemma PagesAreExact(t: Test, events: seq<Event>, limit: nat, pages: nat, k: nat)
    requires ValidTest(t) && t.mode.Count? && Ran(t, events).run.status == SUCCEEDED
    requires pages * limit >= t.requestCount && k < t.requestCount
    ensures var read := Pages(Selected(Ran(t, events).buffer.stored, None), limit, pages);
            |read| == t.requestCount && read[k].sequence == k + 1
  {
    hide Ran;
    var s := Ran(t, events);
    SuccessIsExact(t, events);
    EverythingSelected(s.buffer.stored);
    PagesReadAll(s.buffer.stored, limit, pages);
  }

  /** Over any events the reported total never shrinks, and a closed run never changes. */
  lemma {:induction false} ReportsOnlyGrow(t: Test, s: System, events: seq<Event>)
    requires Inv(t, s)
    ensures s.run.reported <= After(t, s, events).run.reported
    ensures s.run.status != RUNNING ==> After(t, s, events).run == s.run
    decreases |events|
  {
    hide Inv, Step;
    if events != [] {
      StepKeepsInv(t, s, events[0]);
      ReportGrows(t, s, events[0]);
      ReportsOnlyGrow(t, Step(t, s, events[0]), events[1..]);
    }
  }

  lemma ReportGrows(t: Test, s: System, e: Event)
    requires Inv(t, s)
    ensures s.run.reported <= Step(t, s, e).run.reported
    ensures s.run.status != RUNNING ==> Step(t, s, e).run == s.run
  {
    hide ClaimsOk, NumbersOk, ResponsesOk, Balanced, Hits, Recorded, Accepted, Drained;
  }
}
