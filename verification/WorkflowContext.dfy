/**
  Which extractions a context holds, said without the loops that put them
  there: the last extraction wins, by round and then by place in the
  declaration.
 */
module WorkflowContext {
  import opened Wrappers
  import opened WorkflowGraph
  import opened WorkflowScheduler
  import opened WorkflowMeaning
  import opened WorkflowExecution

  /** The node declared at position `i` ran before round `r` and extracted `x`. */
  predicate Extracts(nodes: seq<Node>, ex: Executions, rounds: Rounds, r: nat, i: nat, x: string) {
    && i < |nodes| && nodes[i].id in ex && nodes[i].id in rounds
    && ex[nodes[i].id].Executed? && rounds[nodes[i].id] < r && x in ex[nodes[i].id].outcome.extracted
  }

  /** Position `j` ran in an earlier round than `i`, or in the same round no further down. */
  predicate NotAfter(nodes: seq<Node>, rounds: Rounds, j: nat, i: nat) {
    && i < |nodes| && j < |nodes| && nodes[i].id in rounds && nodes[j].id in rounds
    && var earlier, later := rounds[nodes[j].id], rounds[nodes[i].id];
       earlier < later || (earlier == later && j <= i)
  }

  ghost predicate ExtractsLast(nodes: seq<Node>, ex: Executions, rounds: Rounds, r: nat, i: nat, x: string) {
    && Extracts(nodes, ex, rounds, r, i, x)
    && forall j: nat | Extracts(nodes, ex, rounds, r, j, x) :: NotAfter(nodes, rounds, j, i)
  }

  /** What the context says about `x` when round `r` begins: the last extraction, or else the initial value. */
  ghost predicate Reads(nodes: seq<Node>, ex: Executions, rounds: Rounds, initial: Context, r: nat, context: Context,
                        x: string)
  {
    if exists i: nat :: Extracts(nodes, ex, rounds, r, i, x) then
      exists i: nat ::
        && ExtractsLast(nodes, ex, rounds, r, i, x)
        && x in context && context[x] == ex[nodes[i].id].outcome.extracted[x]
    else
      (x in context <==> x in initial) && (x in initial ==> context[x] == initial[x])
  }

  ghost predicate IsContext(nodes: seq<Node>, ex: Executions, rounds: Rounds, initial: Context, r: nat,
                            context: Context)
  {
    forall x :: Reads(nodes, ex, rounds, initial, r, context, x)
  }

  // ------------------------------------------------------------------ one round

  /** The node at `i`, among the first `n`, ran in this very round and extracted `x`. */
  predicate ExtractsIn(nodes: seq<Node>, n: nat, ex: Executions, rounds: Rounds, round: nat, i: nat, x: string) {
    i < n <= |nodes| && RanIn(ex, rounds, nodes[i].id, round) && x in ex[nodes[i].id].outcome.extracted
  }

  /** What merging a round says about `x`: the last extraction of the round, or what was there before. */
  ghost predicate Merges(nodes: seq<Node>, n: nat, ex: Executions, rounds: Rounds, round: nat, before: Context,
                         after: Context, x: string)
  {
    if exists i: nat :: ExtractsIn(nodes, n, ex, rounds, round, i, x) then
      exists i: nat ::
        && ExtractsIn(nodes, n, ex, rounds, round, i, x)
        && (forall j: nat | ExtractsIn(nodes, n, ex, rounds, round, j, x) :: j <= i)
        && x in after && after[x] == ex[nodes[i].id].outcome.extracted[x]
    else
      (x in after <==> x in before) && (x in before ==> after[x] == before[x])
  }

  lemma {:induction false} RoundMerges(nodes: seq<Node>, n: nat, ex: Executions, rounds: Rounds, round: nat,
                                       before: Context, x: string)
    requires n <= |nodes|
    ensures Merges(nodes, n, ex, rounds, round, before, MergeRound(nodes[..n], ex, rounds, round, before), x)
  {
    if n > 0 {
      var m := n - 1;
      RoundMerges(nodes, m, ex, rounds, round, before, x);
      assert nodes[..n][..m] == nodes[..m];
      var merged := MergeRound(nodes[..m], ex, rounds, round, before);
      if ExtractsIn(nodes, n, ex, rounds, round, m, x) {
        NodeAdds(nodes, n, m, ex, rounds, round, before, merged, x);
      } else {
        var after := MergeRound(nodes[..n], ex, rounds, round, before);
        NodeLeaves(nodes, n, m, ex, rounds, round, before, merged, after, x);
      }
    }
  }

  lemma NodeAdds(nodes: seq<Node>, n: nat, m: nat, ex: Executions, rounds: Rounds, round: nat, before: Context,
                 merged: Context, x: string)
    requires n == m + 1 && ExtractsIn(nodes, n, ex, rounds, round, m, x)
    ensures Merges(nodes, n, ex, rounds, round, before, merged + ex[nodes[m].id].outcome.extracted, x)
  {
    var after := merged + ex[nodes[m].id].outcome.extracted;
    assert forall j: nat | ExtractsIn(nodes, n, ex, rounds, round, j, x) :: j <= m;
    assert x in after && after[x] == ex[nodes[m].id].outcome.extracted[x];
  }

  lemma NodeLeaves(nodes: seq<Node>, n: nat, m: nat, ex: Executions, rounds: Rounds, round: nat, before: Context,
                   merged: Context, after: Context, x: string)
    requires n == m + 1 <= |nodes| && !ExtractsIn(nodes, n, ex, rounds, round, m, x)
    requires Merges(nodes, m, ex, rounds, round, before, merged, x)
    requires (x in after <==> x in merged) && (x in merged ==> after[x] == merged[x])
    ensures Merges(nodes, n, ex, rounds, round, before, after, x)
  {
    assert forall j: nat ::
      ExtractsIn(nodes, n, ex, rounds, round, j, x) <==> ExtractsIn(nodes, m, ex, rounds, round, j, x);
    if i: nat :| ExtractsIn(nodes, m, ex, rounds, round, i, x) {
      var k: nat :| && ExtractsIn(nodes, m, ex, rounds, round, k, x)
                    && (forall j: nat | ExtractsIn(nodes, m, ex, rounds, round, j, x) :: j <= k)
                    && x in merged && merged[x] == ex[nodes[k].id].outcome.extracted[x];
      assert ExtractsIn(nodes, n, ex, rounds, round, k, x);
    }
  }

  // ------------------------------------------------------------------ all rounds

  lemma {:induction false} ContextReads(d: Definition, ex: Executions, rounds: Rounds, initial: Context, r: nat,
                                        x: string)
    requires ex.Keys == rounds.Keys && forall n | n in ex :: rounds[n] >= 1
    ensures Reads(d.nodes, ex, rounds, initial, r, ContextBefore(d, ex, rounds, initial, r), x)
  {
    hide MergeRound;
    if r > 1 {
      var q := r - 1;
      ContextReads(d, ex, rounds, initial, q, x);
      var before := ContextBefore(d, ex, rounds, initial, q);
      RoundMerges(d.nodes, |d.nodes|, ex, rounds, q, before, x);
      assert d.nodes[..|d.nodes|] == d.nodes;
      OneMoreRound(d.nodes, |d.nodes|, ex, rounds, initial, r, q, before, ContextBefore(d, ex, rounds, initial, r), x);
    } else {
      assert forall i: nat :: !Extracts(d.nodes, ex, rounds, r, i, x);
    }
  }

  lemma OneMoreRound(nodes: seq<Node>, n: nat, ex: Executions, rounds: Rounds, initial: Context, r: nat, q: nat,
                     before: Context, after: Context, x: string)
    requires r == q + 1 && n == |nodes| && Reads(nodes, ex, rounds, initial, q, before, x)
    requires Merges(nodes, n, ex, rounds, q, before, after, x)
    ensures Reads(nodes, ex, rounds, initial, r, after, x)
  {
    forall j: nat
      ensures Extracts(nodes, ex, rounds, r, j, x)
         <==> (Extracts(nodes, ex, rounds, q, j, x) || ExtractsIn(nodes, n, ex, rounds, q, j, x))
    {
    }
    if i: nat :| ExtractsIn(nodes, n, ex, rounds, q, i, x) {
      var k: nat :| && ExtractsIn(nodes, n, ex, rounds, q, k, x)
                    && (forall j: nat | ExtractsIn(nodes, n, ex, rounds, q, j, x) :: j <= k)
                    && x in after && after[x] == ex[nodes[k].id].outcome.extracted[x];
      assert ExtractsLast(nodes, ex, rounds, r, k, x);
    } else if i: nat :| Extracts(nodes, ex, rounds, q, i, x) {
      var k: nat :| && ExtractsLast(nodes, ex, rounds, q, k, x)
                    && x in before && before[x] == ex[nodes[k].id].outcome.extracted[x];
      assert ExtractsLast(nodes, ex, rounds, r, k, x);
    }
  }

  /** What a context holds for every name determines the context. */
  lemma ContextIsUnique(nodes: seq<Node>, ex: Executions, rounds: Rounds, initial: Context, r: nat, one: Context,
                        other: Context)
    requires IsContext(nodes, ex, rounds, initial, r, one) && IsContext(nodes, ex, rounds, initial, r, other)
    ensures one == other
  {
    forall x
      ensures (x in one <==> x in other) && (x in one ==> one[x] == other[x])
    {
      ReadsSame(nodes, ex, rounds, initial, r, one, other, x);
    }
  }

  lemma ReadsSame(nodes: seq<Node>, ex: Executions, rounds: Rounds, initial: Context, r: nat, one: Context,
                  other: Context, x: string)
    requires Reads(nodes, ex, rounds, initial, r, one, x) && Reads(nodes, ex, rounds, initial, r, other, x)
    ensures (x in one <==> x in other) && (x in one ==> one[x] == other[x])
  {
    if i: nat :| Extracts(nodes, ex, rounds, r, i, x) {
      var k: nat :| && ExtractsLast(nodes, ex, rounds, r, k, x)
                    && x in one && one[x] == ex[nodes[k].id].outcome.extracted[x];
      var l: nat :| && ExtractsLast(nodes, ex, rounds, r, l, x)
                    && x in other && other[x] == ex[nodes[l].id].outcome.extracted[x];
      assert NotAfter(nodes, rounds, k, l) && NotAfter(nodes, rounds, l, k);
    }
  }

  // ------------------------------------------------------------------ the whole run

  /** The node ran on a context holding exactly what was extracted in earlier rounds, over the initial values. */
  ghost predicate RanOnItsContext(d: Definition, oracle: Oracle, initial: Context, ex: Executions, rounds: Rounds,
                                  n: NodeId)
    requires n in ex && n in rounds && n in Ids(d.nodes) && ex[n].Executed?
  {
    exists seen ::
      && IsContext(d.nodes, ex, rounds, initial, rounds[n], seen)
      && ex[n].outcome == oracle(FindNode(d.nodes, n), seen)
  }

  /** The edge is followed: always, on success, on failure, or on the branch its condition took. */
  predicate Leads(e: Edge, source: Execution) {
    || (e.outcome == "always" && StatusOf(source) != SKIPPED)
    || (e.outcome == "success" && StatusOf(source) == SUCCEEDED)
    || (e.outcome == "failure" && StatusOf(source) == FAILED)
    || (e.outcome == "true" && source.Executed? && source.outcome.branch == Some(true))
    || (e.outcome == "false" && source.Executed? && source.outcome.branch == Some(false))
  }

  /** Some edge leads into the node. */
  predicate LedTo(d: Definition, ex: Executions, n: NodeId) {
    exists e | e in d.edges && e.target == n :: e.source in ex && Leads(e, ex[e.source])
  }

  lemma EdgeLeadsExactly(d: Definition, e: Edge, source: Execution)
    requires WellFormed(d) && e in d.edges
    ensures EdgeActive(e, source) <==> Leads(e, source)
  {
    hide WellFormed;
    WellFormedExactly(d);
    assert EdgeFits(d.nodes, e);
  }

  lemma ActivatedExactly(d: Definition, ex: Executions, n: NodeId)
    requires WellFormed(d)
    ensures Activated(d, ex, n) <==> LedTo(d, ex, n)
  {
    hide WellFormed, EdgeActive, Leads;
    forall e | e in d.edges && e.source in ex
      ensures EdgeActive(e, ex[e.source]) <==> Leads(e, ex[e.source])
    {
      EdgeLeadsExactly(d, e, ex[e.source]);
    }
  }

  /** The cap the parallel node puts on a wave it leads into: its own setting, or else two. */
  ghost predicate Caps(n: Node, cap: int) {
    n.kind == "parallel" && cap == match n.maxConcurrency case None => 2 case Some(limit) => limit
  }

  /** Node `n` is parallel, ran, and edge `e` leads from it into the wave. */
  ghost predicate CapsWave(d: Definition, ready: seq<Node>, ex: Executions, e: Edge, n: Node, cap: int) {
    && e in d.edges && n in d.nodes && n.id == e.source && Caps(n, cap) && e.target in Ids(ready)
    && e.source in ex && ex[e.source].Executed?
  }

  /** A wave is capped by the parallel nodes that ran and have an edge into it, and by no others. */
  lemma CapsExactly(d: Definition, ready: seq<Node>, ex: Executions, cap: int)
    requires WellFormed(d)
    ensures IsCap(d, ready, ex, cap) <==> exists e, n :: CapsWave(d, ready, ex, e, n, cap)
  {
    hide WellFormed, FromParallel, CapOf, CapsWave;
    if IsCap(d, ready, ex, cap) {
      var x, e :| x in ready && FromParallel(d, ex, e, x.id) && CapOf(d, e) == cap;
      CapIsParallel(d, ready, ex, x, e);
    }
    if e, n :| CapsWave(d, ready, ex, e, n, cap) {
      ParallelIsCap(d, ready, ex, e, n, cap);
    }
  }

  lemma CapIsParallel(d: Definition, ready: seq<Node>, ex: Executions, x: Node, e: Edge)
    requires x in ready && FromParallel(d, ex, e, x.id)
    ensures e.source in Ids(d.nodes)
    ensures CapsWave(d, ready, ex, e, FindNode(d.nodes, e.source), CapOf(d, e))
  {
    hide Ids;
    IdsAre(ready);
  }

  lemma ParallelIsCap(d: Definition, ready: seq<Node>, ex: Executions, e: Edge, n: Node, cap: int)
    requires WellFormed(d) && CapsWave(d, ready, ex, e, n, cap)
    ensures IsCap(d, ready, ex, cap)
  {
    hide WellFormed, Ids;
    WellFormedExactly(d);
    assert EdgeFits(d.nodes, e);
    IdsAre(ready);
    IdsAre(d.nodes);
    SameNode(d.nodes, n, FindNode(d.nodes, e.source));
    var x :| x in ready && x.id == e.target;
    assert FromParallel(d, ex, e, x.id) && CapOf(d, e) == cap;
  }

  lemma IdsAre(nodes: seq<Node>)
    ensures forall id :: id in Ids(nodes) <==> exists x :: x in nodes && x.id == id
  {
  }

  lemma SameNode(nodes: seq<Node>, one: Node, other: Node)
    requires DistinctIds(nodes) && one in nodes && other in nodes && one.id == other.id
    ensures one == other
  {
  }

  /** A workflow run, node by node, without the fold that computes its contexts. */
  ghost predicate Means(d: Definition, oracle: Oracle, initial: Context, ex: Executions, rounds: Rounds) {
    && ex.Keys == rounds.Keys == Ids(d.nodes)
    && forall n | n in ex ::
         && SourcesResolved(d, ex, n) && RoundFits(d, ex, rounds, n)
         && (ex[n].Executed? <==> IsRoot(d, n) || LedTo(d, ex, n))
         && (ex[n].Executed? ==> RanOnItsContext(d, oracle, initial, ex, rounds, n))
  }

  lemma RoundsStartAtOne(d: Definition, ex: Executions, rounds: Rounds)
    requires ex.Keys == rounds.Keys
    requires forall n | n in ex :: SourcesResolved(d, ex, n) && RoundFits(d, ex, rounds, n)
    ensures forall n | n in ex :: rounds[n] >= 1
  {
  }

  lemma ContextIsExact(d: Definition, ex: Executions, rounds: Rounds, initial: Context, r: nat, context: Context)
    requires ex.Keys == rounds.Keys && forall n | n in ex :: rounds[n] >= 1
    ensures IsContext(d.nodes, ex, rounds, initial, r, context) <==> context == ContextBefore(d, ex, rounds, initial, r)
  {
    hide Reads;
    forall x
      ensures Reads(d.nodes, ex, rounds, initial, r, ContextBefore(d, ex, rounds, initial, r), x)
    {
      ContextReads(d, ex, rounds, initial, r, x);
    }
    if IsContext(d.nodes, ex, rounds, initial, r, context) {
      ContextIsUnique(d.nodes, ex, rounds, initial, r, context, ContextBefore(d, ex, rounds, initial, r));
    }
  }

  /** The schedule the waves compute is exactly this reading of the workflow. */
  lemma ScheduleMeansExactly(d: Definition, oracle: Oracle, initial: Context, ex: Executions, rounds: Rounds)
    requires WellFormed(d)
    ensures Schedule(d, oracle, initial, ex, rounds) <==> Means(d, oracle, initial, ex, rounds)
  {
    hide RoundFits, SourcesResolved, Activated, LedTo, WellFormed, IsContext, ContextBefore, FindNode;
    if Schedule(d, oracle, initial, ex, rounds) || Means(d, oracle, initial, ex, rounds) {
      RoundsStartAtOne(d, ex, rounds);
      forall n
        ensures Activated(d, ex, n) <==> LedTo(d, ex, n)
      {
        ActivatedExactly(d, ex, n);
      }
      forall n | n in ex && ex[n].Executed?
        ensures RanOnItsContext(d, oracle, initial, ex, rounds, n)
           <==> ex[n].outcome == oracle(FindNode(d.nodes, n), ContextBefore(d, ex, rounds, initial, rounds[n]))
      {
        RanOnExactly(d, oracle, initial, ex, rounds, n);
      }
    }
  }

  lemma RanOnExactly(d: Definition, oracle: Oracle, initial: Context, ex: Executions, rounds: Rounds, n: NodeId)
    requires ex.Keys == rounds.Keys && forall m | m in ex :: rounds[m] >= 1
    requires n in ex && n in Ids(d.nodes) && ex[n].Executed?
    ensures RanOnItsContext(d, oracle, initial, ex, rounds, n)
       <==> ex[n].outcome == oracle(FindNode(d.nodes, n), ContextBefore(d, ex, rounds, initial, rounds[n]))
  {
    hide IsContext, ContextBefore, FindNode;
    var here := ContextBefore(d, ex, rounds, initial, rounds[n]);
    ContextIsExact(d, ex, rounds, initial, rounds[n], here);
    if RanOnItsContext(d, oracle, initial, ex, rounds, n) {
      var seen :| && IsContext(d.nodes, ex, rounds, initial, rounds[n], seen)
                  && ex[n].outcome == oracle(FindNode(d.nodes, n), seen);
      ContextIsExact(d, ex, rounds, initial, rounds[n], seen);
    }
  }

  /** What every node that ran left behind: a context read once the last round is over. */
  ghost predicate IsFinalContext(nodes: seq<Node>, ex: Executions, rounds: Rounds, initial: Context, context: Context)
    requires ex.Keys == rounds.Keys
  {
    forall r: nat | AllRanBefore(ex, rounds, r) :: IsContext(nodes, ex, rounds, initial, r, context)
  }

  /** Each node's result in declaration order. */
  predicate Reports(nodes: seq<Node>, ex: Executions, results: seq<(NodeId, Status)>) {
    && |results| == |nodes|
    && forall i | 0 <= i < |nodes| ::
         && nodes[i].id in ex && results[i].0 == nodes[i].id
         && (results[i].1 == SKIPPED <==> ex[nodes[i].id].Skipped?)
         && (results[i].1 == SUCCEEDED <==> ex[nodes[i].id].Executed? && ex[nodes[i].id].outcome.succeeded)
  }

  /**
    A finished record reports a run in which every node saw exactly the
    earlier extractions, and it leaves exactly the last extraction of every
    name over the initial context.
   */
  lemma FinishedIsExact(d: Definition, oracle: Oracle, variables: Context, given: Context, record: Record)
    requires Records(d, oracle, variables, given, record) && record.Finished?
    ensures exists ex: Executions, rounds: Rounds ::
              && Means(d, oracle, variables + given, ex, rounds)
              && Reports(d.nodes, ex, record.results)
              && (record.failed <==> exists n | n in ex :: ex[n].Executed? && !ex[n].outcome.succeeded)
              && IsFinalContext(d.nodes, ex, rounds, variables + given, record.context)
  {
    hide Records, Schedule, Means, WellFormed, ContextBefore, AllRanBefore, IsFinalContext, StatusOf;
    var initial := variables + given;
    var ex, rounds := FinishedSchedule(d, oracle, variables, given, record);
    ScheduleMeansExactly(d, oracle, initial, ex, rounds);
    ScheduleRounds(d, oracle, initial, ex, rounds);
    FinalContextIsExact(d, ex, rounds, initial, record.context);
    ResultsReport(d.nodes, ex);
  }

  lemma FinishedSchedule(d: Definition, oracle: Oracle, variables: Context, given: Context, record: Record)
    returns (ex: Executions, rounds: Rounds)
    requires Records(d, oracle, variables, given, record) && record.Finished?
    ensures WellFormed(d) && Schedule(d, oracle, variables + given, ex, rounds)
    ensures RecordOf(d, oracle, variables + given, ex, rounds, record)
  {
    hide Schedule, RecordOf, WellFormed, Acyclic;
    ex, rounds :| && Schedule(d, oracle, variables + given, ex, rounds)
                  && RecordOf(d, oracle, variables + given, ex, rounds, record);
  }

  lemma ResultsReport(nodes: seq<Node>, ex: Executions)
    requires Ids(nodes) == ex.Keys
    ensures Reports(nodes, ex, Results(nodes, ex))
    ensures (exists n | n in ex :: StatusOf(ex[n]) == FAILED)
       <==> (exists n | n in ex :: ex[n].Executed? && !ex[n].outcome.succeeded)
  {
    assert forall n | n in ex :: StatusOf(ex[n]) == FAILED <==> ex[n].Executed? && !ex[n].outcome.succeeded;
  }

  lemma FinalContextIsExact(d: Definition, ex: Executions, rounds: Rounds, initial: Context, context: Context)
    requires ex.Keys == rounds.Keys && forall n | n in ex :: rounds[n] >= 1
    requires forall r: nat | AllRanBefore(ex, rounds, r) :: context == ContextBefore(d, ex, rounds, initial, r)
    ensures IsFinalContext(d.nodes, ex, rounds, initial, context)
  {
    hide AllRanBefore, ContextBefore, IsContext;
    forall r: nat | AllRanBefore(ex, rounds, r)
      ensures IsContext(d.nodes, ex, rounds, initial, r, context)
    {
      ContextIsExact(d, ex, rounds, initial, r, context);
    }
  }

  lemma ScheduleRounds(d: Definition, oracle: Oracle, initial: Context, ex: Executions, rounds: Rounds)
    requires Schedule(d, oracle, initial, ex, rounds)
    ensures ex.Keys == rounds.Keys == Ids(d.nodes) && forall n | n in ex :: rounds[n] >= 1
  {
    forall n | n in ex
      ensures rounds[n] >= 1
    {
      ExecutedWhen(d, oracle, initial, ex, rounds, n);
    }
  }
}
