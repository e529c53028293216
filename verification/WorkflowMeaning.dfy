/**
  What a schedule means: it is unique, its executed nodes are those reached by
  active edges, and the order in which skips are discovered is irrelevant.
 */
module WorkflowMeaning {
  import opened Wrappers
  import opened WorkflowGraph
  import opened WorkflowScheduler

  /** A topological order read as a rank that grows along every edge. */
  ghost predicate Ranked(d: Definition, rank: map<NodeId, nat>) {
    && rank.Keys == Ids(d.nodes)
    && forall e | e in d.edges :: e.source in rank && e.target in rank && rank[e.source] < rank[e.target]
  }

  lemma AcyclicHasRank(d: Definition) returns (rank: map<NodeId, nat>)
    requires Closed(d) && Acyclic(d)
    ensures Ranked(d, rank)
  {
    AcyclicIffOrderable(d);
    var order :| TopologicalOrder(d, order);
    forall n | n in Ids(d.nodes)
      ensures exists j: nat | j < |order| :: order[j] == n
    {
      assert n in Elements(order);
    }
    rank := map n | n in Ids(d.nodes) :: var j: nat :| j < |order| && order[j] == n; j;
    forall e | e in d.edges
      ensures rank[e.source] < rank[e.target]
    {
      assert e.source in order[..rank[e.target]];
    }
  }

  lemma HighestRank(rank: map<NodeId, nat>) returns (top: nat)
    ensures forall n | n in rank :: rank[n] < top
  {
    top := 0;
    var rest := rank.Keys;
    while rest != {}
      invariant rest <= rank.Keys && forall n | n in rank && n !in rest :: rank[n] < top
    {
      var n :| n in rest;
      rest := rest - {n};
      top := if rank[n] < top then top else rank[n] + 1;
    }
  }

  lemma ScheduleKeys(d: Definition, oracle: Oracle, ctx: Context, ex: Executions, rounds: Rounds)
    requires Schedule(d, oracle, ctx, ex, rounds)
    ensures PartialSchedule(d, oracle, ctx, ex, rounds) && ex.Keys == rounds.Keys == Ids(d.nodes)
  {
  }

  lemma RankKeys(d: Definition, rank: map<NodeId, nat>)
    requires Ranked(d, rank)
    ensures rank.Keys == Ids(d.nodes)
  {
  }

  lemma ExecutedWhen(d: Definition, oracle: Oracle, ctx: Context, ex: Executions, rounds: Rounds, n: NodeId)
    requires PartialSchedule(d, oracle, ctx, ex, rounds) && n in ex
    ensures n in Ids(d.nodes) && SourcesResolved(d, ex, n) && 1 <= rounds[n]
    ensures ex[n].Executed? <==> IsRoot(d, n) || Activated(d, ex, n)
  {
    assert Sound(d, oracle, ctx, ex, rounds, n);
  }

  // -------------------------------------------------------------- uniqueness

  predicate Same(ex1: Executions, rounds1: Rounds, ex2: Executions, rounds2: Rounds, n: NodeId) {
    && n in ex1 && n in ex2 && n in rounds1 && n in rounds2
    && ex1[n] == ex2[n] && rounds1[n] == rounds2[n]
  }

  /** The two schedules agree on every node that either resolves by round `r`. */
  ghost predicate AgreeThrough(d: Definition, ex1: Executions, rounds1: Rounds, ex2: Executions, rounds2: Rounds,
                               r: nat)
    requires ex1.Keys == rounds1.Keys == ex2.Keys == rounds2.Keys == Ids(d.nodes)
  {
    forall n | n in Ids(d.nodes) && (rounds1[n] <= r || rounds2[n] <= r) :: Same(ex1, rounds1, ex2, rounds2, n)
  }

  lemma {:induction false} MergesAgree(nodes: seq<Node>, ex1: Executions, rounds1: Rounds, ex2: Executions,
                                       rounds2: Rounds, k: nat, ctx: Context)
    requires forall n :: RanIn(ex1, rounds1, n, k) || RanIn(ex2, rounds2, n, k) ==> Same(ex1, rounds1, ex2, rounds2, n)
    ensures MergeRound(nodes, ex1, rounds1, k, ctx) == MergeRound(nodes, ex2, rounds2, k, ctx)
  {
    if nodes != [] {
      MergesAgree(nodes[..|nodes| - 1], ex1, rounds1, ex2, rounds2, k, ctx);
    }
  }

  lemma {:induction false} ContextsAgree(d: Definition, ex1: Executions, rounds1: Rounds, ex2: Executions,
                                         rounds2: Rounds, ctx: Context, r: nat)
    requires ex1.Keys == rounds1.Keys == ex2.Keys == rounds2.Keys == Ids(d.nodes)
    requires r >= 1 && AgreeThrough(d, ex1, rounds1, ex2, rounds2, r - 1)
    ensures ContextBefore(d, ex1, rounds1, ctx, r) == ContextBefore(d, ex2, rounds2, ctx, r)
  {
    if r > 1 {
      ContextsAgree(d, ex1, rounds1, ex2, rounds2, ctx, r - 1);
      MergesAgree(d.nodes, ex1, rounds1, ex2, rounds2, r - 1, ContextBefore(d, ex1, rounds1, ctx, r - 1));
    }
  }

  /** A node is determined by its sources and by the context of its round. */
  lemma NodeDetermined(d: Definition, oracle: Oracle, ctx: Context, ex1: Executions, rounds1: Rounds, ex2: Executions,
                       rounds2: Rounds, r: nat, n: NodeId)
    requires Schedule(d, oracle, ctx, ex1, rounds1) && Schedule(d, oracle, ctx, ex2, rounds2)
    requires r >= 1 && AgreeThrough(d, ex1, rounds1, ex2, rounds2, r - 1)
    requires n in Ids(d.nodes) && rounds1[n] == r
    requires forall e | e in d.edges && e.target == n :: Same(ex1, rounds1, ex2, rounds2, e.source)
    ensures Same(ex1, rounds1, ex2, rounds2, n)
  {
    assert Sound(d, oracle, ctx, ex1, rounds1, n) && Sound(d, oracle, ctx, ex2, rounds2, n);
    SameRound(d, ex1, rounds1, ex2, rounds2, n);
    assert Activated(d, ex1, n) <==> Activated(d, ex2, n);
    ContextsAgree(d, ex1, rounds1, ex2, rounds2, ctx, r);
  }

  lemma SameRound(d: Definition, ex1: Executions, rounds1: Rounds, ex2: Executions, rounds2: Rounds, n: NodeId)
    requires ex1.Keys == rounds1.Keys && ex2.Keys == rounds2.Keys && n in ex1 && n in ex2
    requires SourcesResolved(d, ex1, n) && SourcesResolved(d, ex2, n)
    requires RoundFits(d, ex1, rounds1, n) && RoundFits(d, ex2, rounds2, n)
    requires forall e | e in d.edges && e.target == n :: Same(ex1, rounds1, ex2, rounds2, e.source)
    ensures rounds1[n] == rounds2[n]
  {
    assert forall e | e in d.edges && e.target == n :: Reaches(ex1, rounds1, e) == Reaches(ex2, rounds2, e);
    if rounds1[n] > 1 {
      var e :| e in d.edges && e.target == n && Reaches(ex1, rounds1, e) == rounds1[n];
      assert Reaches(ex2, rounds2, e) <= rounds2[n];
    }
    if rounds2[n] > 1 {
      var e :| e in d.edges && e.target == n && Reaches(ex2, rounds2, e) == rounds2[n];
      assert Reaches(ex1, rounds1, e) <= rounds1[n];
    }
  }

  lemma SourceNotLater(d: Definition, oracle: Oracle, ctx: Context, ex: Executions, rounds: Rounds, e: Edge)
    requires Schedule(d, oracle, ctx, ex, rounds) && e in d.edges && e.target in ex
    ensures e.source in ex && 1 <= rounds[e.source] <= rounds[e.target]
  {
    assert Sound(d, oracle, ctx, ex, rounds, e.target);
    assert Sound(d, oracle, ctx, ex, rounds, e.source);
    assert Reaches(ex, rounds, e) <= rounds[e.target];
  }

  /** As `AgreeThrough`, restricted to nodes of rank below `k`. */
  ghost predicate AgreeBelow(ex1: Executions, rounds1: Rounds, ex2: Executions, rounds2: Rounds, rank: map<NodeId, nat>,
                             r: nat, k: nat)
    requires ex1.Keys == rounds1.Keys == ex2.Keys == rounds2.Keys == rank.Keys
  {
    forall n | n in rank && rank[n] < k && (rounds1[n] <= r || rounds2[n] <= r) :: Same(ex1, rounds1, ex2, rounds2, n)
  }

  lemma SourcesAgree(d: Definition, oracle: Oracle, ctx: Context, ex1: Executions, rounds1: Rounds, ex2: Executions,
                     rounds2: Rounds, rank: map<NodeId, nat>, r: nat, n: NodeId)
    requires Schedule(d, oracle, ctx, ex1, rounds1) && Schedule(d, oracle, ctx, ex2, rounds2)
    requires Ranked(d, rank) && n in rank && (rounds1[n] <= r || rounds2[n] <= r)
    requires AgreeBelow(ex1, rounds1, ex2, rounds2, rank, r, rank[n])
    ensures forall e | e in d.edges && e.target == n :: Same(ex1, rounds1, ex2, rounds2, e.source)
  {
    hide Schedule, PartialSchedule;
    ScheduleKeys(d, oracle, ctx, ex1, rounds1);
    ScheduleKeys(d, oracle, ctx, ex2, rounds2);
    forall e | e in d.edges && e.target == n
      ensures Same(ex1, rounds1, ex2, rounds2, e.source)
    {
      SourceNotLater(d, oracle, ctx, ex1, rounds1, e);
      SourceNotLater(d, oracle, ctx, ex2, rounds2, e);
    }
  }

  lemma {:induction false} AgreeByRank(d: Definition, oracle: Oracle, ctx: Context, ex1: Executions, rounds1: Rounds,
                                       ex2: Executions, rounds2: Rounds, rank: map<NodeId, nat>, r: nat, k: nat)
    requires Schedule(d, oracle, ctx, ex1, rounds1) && Schedule(d, oracle, ctx, ex2, rounds2)
    requires Ranked(d, rank) && r >= 1 && AgreeThrough(d, ex1, rounds1, ex2, rounds2, r - 1)
    ensures AgreeBelow(ex1, rounds1, ex2, rounds2, rank, r, k)
  {
    hide Schedule, PartialSchedule, Ranked, AgreeThrough;
    ScheduleKeys(d, oracle, ctx, ex1, rounds1);
    ScheduleKeys(d, oracle, ctx, ex2, rounds2);
    RankKeys(d, rank);
    if k > 0 {
      AgreeByRank(d, oracle, ctx, ex1, rounds1, ex2, rounds2, rank, r, k - 1);
      forall n | n in rank && rank[n] == k - 1 && (rounds1[n] <= r || rounds2[n] <= r)
        ensures Same(ex1, rounds1, ex2, rounds2, n)
      {
        AgreeAtNode(d, oracle, ctx, ex1, rounds1, ex2, rounds2, rank, r, n);
      }
    }
  }

  lemma AgreeAtNode(d: Definition, oracle: Oracle, ctx: Context, ex1: Executions, rounds1: Rounds, ex2: Executions,
                    rounds2: Rounds, rank: map<NodeId, nat>, r: nat, n: NodeId)
    requires Schedule(d, oracle, ctx, ex1, rounds1) && Schedule(d, oracle, ctx, ex2, rounds2)
    requires Ranked(d, rank) && r >= 1 && AgreeThrough(d, ex1, rounds1, ex2, rounds2, r - 1)
    requires n in rank && (rounds1[n] <= r || rounds2[n] <= r)
    requires AgreeBelow(ex1, rounds1, ex2, rounds2, rank, r, rank[n])
    ensures Same(ex1, rounds1, ex2, rounds2, n)
  {
    hide Schedule, PartialSchedule, Ranked, AgreeBelow;
    RankKeys(d, rank);
    ScheduleKeys(d, oracle, ctx, ex1, rounds1);
    ScheduleKeys(d, oracle, ctx, ex2, rounds2);
    SourcesAgree(d, oracle, ctx, ex1, rounds1, ex2, rounds2, rank, r, n);
    if rounds1[n] == r {
      NodeDetermined(d, oracle, ctx, ex1, rounds1, ex2, rounds2, r, n);
    } else if rounds2[n] == r {
      NodeDetermined(d, oracle, ctx, ex2, rounds2, ex1, rounds1, r, n);
    }
  }

  lemma {:induction false} AgreeByRound(d: Definition, oracle: Oracle, ctx: Context, ex1: Executions, rounds1: Rounds,
                                        ex2: Executions, rounds2: Rounds, rank: map<NodeId, nat>, r: nat)
    requires Schedule(d, oracle, ctx, ex1, rounds1) && Schedule(d, oracle, ctx, ex2, rounds2)
    requires Ranked(d, rank)
    ensures AgreeThrough(d, ex1, rounds1, ex2, rounds2, r)
  {
    hide Schedule, PartialSchedule, Ranked, Ids;
    ScheduleKeys(d, oracle, ctx, ex1, rounds1);
    ScheduleKeys(d, oracle, ctx, ex2, rounds2);
    RankKeys(d, rank);
    if r == 0 {
      forall n | n in Ids(d.nodes)
        ensures rounds1[n] >= 1 && rounds2[n] >= 1
      {
        ExecutedWhen(d, oracle, ctx, ex1, rounds1, n);
        ExecutedWhen(d, oracle, ctx, ex2, rounds2, n);
      }
    } else {
      AgreeByRound(d, oracle, ctx, ex1, rounds1, ex2, rounds2, rank, r - 1);
      var top := HighestRank(rank);
      AgreeByRank(d, oracle, ctx, ex1, rounds1, ex2, rounds2, rank, r, top);
    }
  }

  /** A workflow, its oracle and its initial context determine the run completely. */
  lemma ScheduleIsUnique(d: Definition, oracle: Oracle, ctx: Context, ex1: Executions, rounds1: Rounds, ex2: Executions,
                         rounds2: Rounds)
    requires Closed(d) && Acyclic(d)
    requires Schedule(d, oracle, ctx, ex1, rounds1) && Schedule(d, oracle, ctx, ex2, rounds2)
    ensures ex1 == ex2 && rounds1 == rounds2
  {
    hide Schedule, PartialSchedule, Ranked, Closed, Acyclic, Ids, AgreeThrough;
    ScheduleKeys(d, oracle, ctx, ex1, rounds1);
    ScheduleKeys(d, oracle, ctx, ex2, rounds2);
    var rank := AcyclicHasRank(d);
    forall n | n in ex1
      ensures ex1[n] == ex2[n] && rounds1[n] == rounds2[n]
    {
      AgreeByRound(d, oracle, ctx, ex1, rounds1, ex2, rounds2, rank, rounds1[n]);
      AgreeAt(d, ex1, rounds1, ex2, rounds2, rounds1[n], n);
    }
  }

  lemma AgreeAt(d: Definition, ex1: Executions, rounds1: Rounds, ex2: Executions, rounds2: Rounds, r: nat, n: NodeId)
    requires ex1.Keys == rounds1.Keys == ex2.Keys == rounds2.Keys == Ids(d.nodes)
    requires AgreeThrough(d, ex1, rounds1, ex2, rounds2, r)
    requires n in Ids(d.nodes) && rounds1[n] <= r
    ensures Same(ex1, rounds1, ex2, rounds2, n)
  {
  }

  // ------------------------------------------------------ active reachability

  /** `p` leads along active edges from a root to `n`. */
  ghost predicate ActivePath(d: Definition, ex: Executions, p: seq<Edge>, n: NodeId)
    decreases |p|
  {
    if p == [] then IsRoot(d, n)
    else
      var last := p[|p| - 1];
      && last in d.edges && last.target == n
      && last.source in ex && EdgeActive(last, ex[last.source])
      && ActivePath(d, ex, p[..|p| - 1], last.source)
  }

  lemma ActiveMeansExecuted(e: Edge, source: Execution)
    requires EdgeActive(e, source)
    ensures source.Executed?
  {
  }

  lemma {:induction false} PathTo(d: Definition, oracle: Oracle, ctx: Context, ex: Executions, rounds: Rounds,
                                  rank: map<NodeId, nat>, n: NodeId) returns (p: seq<Edge>)
    requires Schedule(d, oracle, ctx, ex, rounds) && Ranked(d, rank)
    requires n in ex && ex[n].Executed?
    ensures ActivePath(d, ex, p, n)
    decreases if n in rank then rank[n] else 0
  {
    hide Schedule, PartialSchedule, SourcesResolved, EdgeActive;
    ScheduleKeys(d, oracle, ctx, ex, rounds);
    ExecutedWhen(d, oracle, ctx, ex, rounds, n);
    if IsRoot(d, n) {
      p := [];
    } else {
      var e :| e in d.edges && e.target == n && e.source in ex && EdgeActive(e, ex[e.source]);
      ActiveMeansExecuted(e, ex[e.source]);
      var q := PathTo(d, oracle, ctx, ex, rounds, rank, e.source);
      p := q + [e];
      assert p[..|p| - 1] == q;
    }
  }

  /** On completion a node has run iff active edges lead to it from a root; all others are SKIPPED. */
  lemma RanIffActivelyReachable(d: Definition, oracle: Oracle, ctx: Context, ex: Executions, rounds: Rounds, n: NodeId)
    requires Closed(d) && Acyclic(d) && Schedule(d, oracle, ctx, ex, rounds) && n in Ids(d.nodes)
    ensures StatusOf(ex[n]) != SKIPPED <==> exists p :: ActivePath(d, ex, p, n)
  {
    hide Schedule, PartialSchedule, SourcesResolved, EdgeActive;
    ScheduleKeys(d, oracle, ctx, ex, rounds);
    ExecutedWhen(d, oracle, ctx, ex, rounds, n);
    if ex[n].Executed? {
      var rank := AcyclicHasRank(d);
      var p := PathTo(d, oracle, ctx, ex, rounds, rank, n);
    }
  }

  // -------------------------------------------------------- the skip fixpoint

  /** Two skip phases of one round that both ran to a fixpoint skipped the same nodes. */
  lemma {:induction false} SkipsAgree(d: Definition, oracle: Oracle, ctx: Context, ex0: Executions, rounds0: Rounds,
                                      t: nat, exA: Executions, roundsA: Rounds, exB: Executions, roundsB: Rounds,
                                      rank: map<NodeId, nat>, n: NodeId)
    requires Ranked(d, rank) && n in rank
    requires SkipPhase(d, ex0, rounds0, exA, roundsA, t) && PartialSchedule(d, oracle, ctx, exA, roundsA)
    requires SkipPhase(d, ex0, rounds0, exB, roundsB, t)
    requires forall m | m in Ids(d.nodes) && m !in exB :: !Skippable(d, exB, m)
    ensures n in exA ==> n in exB && exA[n] == exB[n]
    decreases rank[n]
  {
    hide PartialSchedule, RoundStart, EdgeActive;
    if n in exA && n !in ex0 {
      ExecutedWhen(d, oracle, ctx, exA, roundsA, n);
      forall e | e in d.edges && e.target == n
        ensures e.source in exA && e.source in exB && exA[e.source] == exB[e.source]
      {
        SkipsAgree(d, oracle, ctx, ex0, rounds0, t, exA, roundsA, exB, roundsB, rank, e.source);
      }
      assert n in exB || Skippable(d, exB, n);
    }
  }

  /** The scan order inside a skip phase does not matter. */
  lemma SkipFixpointIsUnique(d: Definition, oracle: Oracle, ctx: Context, ex0: Executions, rounds0: Rounds, t: nat,
                             exA: Executions, roundsA: Rounds, exB: Executions, roundsB: Rounds)
    requires Closed(d) && Acyclic(d)
    requires SkipPhase(d, ex0, rounds0, exA, roundsA, t) && PartialSchedule(d, oracle, ctx, exA, roundsA)
    requires SkipPhase(d, ex0, rounds0, exB, roundsB, t) && PartialSchedule(d, oracle, ctx, exB, roundsB)
    requires forall n | n in Ids(d.nodes) && n !in exA :: !Skippable(d, exA, n)
    requires forall n | n in Ids(d.nodes) && n !in exB :: !Skippable(d, exB, n)
    ensures exA == exB
  {
    hide RoundStart, PartialSchedule, Skippable, Closed, Acyclic, Ranked;
    var rank := AcyclicHasRank(d);
    RankKeys(d, rank);
    forall n | n in Ids(d.nodes)
      ensures n in exA <==> n in exB
      ensures n in exA && n in exB ==> exA[n] == exB[n]
    {
      SkipsAgree(d, oracle, ctx, ex0, rounds0, t, exA, roundsA, exB, roundsB, rank, n);
      SkipsAgree(d, oracle, ctx, ex0, rounds0, t, exB, roundsB, exA, roundsA, rank, n);
    }
  }

  // ------------------------------------------------------------ when it raises

  /** A workflow of unconditional edges runs every node, so it never raises. */
  lemma UnconditionalAlwaysCompletes(d: Definition, oracle: Oracle, ctx: Context, ex: Executions, rounds: Rounds)
    requires Closed(d) && Acyclic(d) && Schedule(d, oracle, ctx, ex, rounds)
    requires forall e | e in d.edges :: e.outcome == "always"
    ensures forall n | n in ex :: ex[n].Executed?
    ensures !SkippedLast(ex, rounds)
  {
    var rank := AcyclicHasRank(d);
    forall n | n in ex
      ensures ex[n].Executed?
    {
      RunsThrough(d, oracle, ctx, ex, rounds, rank, n);
    }
  }

  lemma {:induction false} RunsThrough(d: Definition, oracle: Oracle, ctx: Context, ex: Executions, rounds: Rounds,
                                       rank: map<NodeId, nat>, n: NodeId)
    requires Schedule(d, oracle, ctx, ex, rounds) && Ranked(d, rank) && n in rank
    requires forall e | e in d.edges :: e.outcome == "always"
    ensures n in ex && ex[n].Executed?
    decreases rank[n]
  {
    hide PartialSchedule, SourcesResolved;
    ExecutedWhen(d, oracle, ctx, ex, rounds, n);
    if !IsRoot(d, n) {
      var e :| e in d.edges && e.target == n;
      RunsThrough(d, oracle, ctx, ex, rounds, rank, e.source);
      assert EdgeActive(e, ex[e.source]);
    }
  }

  // ---------------------------------------------------------- the last wave

  /** The node ran, and nothing ran after it. */
  ghost predicate InLastWave(ex: Executions, rounds: Rounds, n: NodeId)
    requires ex.Keys == rounds.Keys
  {
    n in ex && ex[n].Executed? && forall m | m in ex && ex[m].Executed? :: rounds[m] <= rounds[n]
  }

  /** A skip discovered after the last wave goes back to an edge leaving that wave. */
  lemma {:induction false} LateSkipFollowsLastWave(d: Definition, oracle: Oracle, ctx: Context, ex: Executions,
                                                   rounds: Rounds, rank: map<NodeId, nat>, n: NodeId) returns (e: Edge)
    requires Schedule(d, oracle, ctx, ex, rounds) && Ranked(d, rank)
    requires n in ex && ex[n].Skipped? && AllRanBefore(ex, rounds, rounds[n])
    ensures e in d.edges && InLastWave(ex, rounds, e.source)
    decreases if n in rank then rank[n] else 0
  {
    hide Schedule, PartialSchedule, Activated;
    ScheduleKeys(d, oracle, ctx, ex, rounds);
    var before := LatestSource(d, oracle, ctx, ex, rounds, n);
    if ex[before.source].Executed? {
      e := before;
    } else {
      e := LateSkipFollowsLastWave(d, oracle, ctx, ex, rounds, rank, before.source);
    }
  }

  /** A skipped node's round comes from one of its sources. */
  lemma LatestSource(d: Definition, oracle: Oracle, ctx: Context, ex: Executions, rounds: Rounds, n: NodeId)
    returns (e: Edge)
    requires Schedule(d, oracle, ctx, ex, rounds) && n in ex && ex[n].Skipped?
    ensures e in d.edges && e.target == n && e.source in ex && e.source in rounds && Reaches(ex, rounds, e) == rounds[n]
  {
    assert Sound(d, oracle, ctx, ex, rounds, n);
    assert !IsRoot(d, n);
    if rounds[n] == 1 {
      e :| e in d.edges && e.target == n;
      assert Sound(d, oracle, ctx, ex, rounds, e.source);
    } else {
      e :| e in d.edges && e.target == n && Reaches(ex, rounds, e) == rounds[n];
    }
  }

  /**
    A workflow raises exactly when its last wave has an edge leading on:
    it completes when that wave has only sinks.
   */
  lemma RaisesIffLastWaveLeadsOn(d: Definition, oracle: Oracle, ctx: Context, ex: Executions, rounds: Rounds)
    requires Closed(d) && Acyclic(d) && Schedule(d, oracle, ctx, ex, rounds)
    ensures SkippedLast(ex, rounds) <==> exists e | e in d.edges :: InLastWave(ex, rounds, e.source)
  {
    hide Schedule, PartialSchedule, Acyclic;
    ScheduleKeys(d, oracle, ctx, ex, rounds);
    if SkippedLast(ex, rounds) {
      var n :| n in ex && ex[n].Skipped? && AllRanBefore(ex, rounds, rounds[n]);
      var rank := AcyclicHasRank(d);
      var e := LateSkipFollowsLastWave(d, oracle, ctx, ex, rounds, rank, n);
    }
    if e :| e in d.edges && InLastWave(ex, rounds, e.source) {
      FollowsSource(d, oracle, ctx, ex, rounds, e);
      assert ex[e.target].Skipped? && AllRanBefore(ex, rounds, rounds[e.target]);
    }
  }

  // ---------------------------------------------------- the smallest example

  const CHECK := Identifier("check")
  const ACTION := Identifier("action")

  /** One condition node and one edge of its `true` branch. */
  function BranchToNothing(): Definition {
    Definition([Node(CHECK, "condition", None), Node(ACTION, "http", None)],
               [Edge(Identifier("e"), CHECK, ACTION, "true")])
  }

  /** Its run raises whenever the condition comes out false. */
  lemma UntakenBranchRaises(oracle: Oracle, ctx: Context, ex: Executions, rounds: Rounds)
    requires Schedule(BranchToNothing(), oracle, ctx, ex, rounds)
    requires oracle(BranchToNothing().nodes[0], ctx).branch == Some(false)
    ensures SkippedLast(ex, rounds)
  {
    hide Schedule, PartialSchedule, Sound, Ids, FindNode;
    var d := BranchToNothing();
    TwoNodes();
    ScheduleKeys(d, oracle, ctx, ex, rounds);
    var e := d.edges[0];
    assert e in d.edges && forall x | x in d.edges :: x == e;
    RootRunsFirst(d, oracle, ctx, ex, rounds, CHECK);
    ExecutedWhen(d, oracle, ctx, ex, rounds, ACTION);
    assert e.outcome[0] == 't';
    assert !Activated(d, ex, ACTION);
    FollowsSource(d, oracle, ctx, ex, rounds, e);
  }

  lemma TwoNodes()
    ensures CHECK != ACTION
    ensures Ids(BranchToNothing().nodes) == {CHECK, ACTION}
    ensures FindNode(BranchToNothing().nodes, CHECK) == BranchToNothing().nodes[0]
  {
    var nodes := BranchToNothing().nodes;
    assert CHECK.text[0] != ACTION.text[0];
    assert nodes[0].id in Ids(nodes) && nodes[1].id in Ids(nodes);
  }

  /** The validator accepts it. */
  lemma BranchIsValid()
    ensures WellFormed(BranchToNothing()) && Closed(BranchToNothing()) && Acyclic(BranchToNothing())
  {
    var d := BranchToNothing();
    TwoNodes();
    BranchNodesAreSound();
    BranchEdgeIsSound();
    var order := [CHECK, ACTION];
    assert order[..1] == [CHECK] && Elements(order) == {CHECK, ACTION};
    OrderedImpliesAcyclic(d, order);
  }

  lemma BranchNodesAreSound()
    ensures NodesSound(BranchToNothing().nodes)
  {
    var nodes := BranchToNothing().nodes;
    TwoNodes();
    assert nodes[..1] == [nodes[0]];
    assert nodes[0].kind != "http" by { assert nodes[0].kind[0] == 'c'; }
    assert ValidIdentifier(CHECK) && ValidIdentifier(ACTION);
  }

  lemma BranchEdgeIsSound()
    ensures EdgesSound(BranchToNothing())
  {
    var d := BranchToNothing();
    var e := d.edges[0];
    TwoNodes();
    assert KindOf(d.nodes, CHECK) == Some(Condition) by {
      assert d.nodes[0].kind[0] == 'c';
    }
    assert e.outcome[0] == 't' && |e.outcome| == 4;
    assert ParseOutcome(e.outcome) == Some(OnTrue);
    assert ValidIdentifier(e.id) && d.edges[..0] == [];
  }

  /** Its one schedule when the condition comes out false. */
  lemma BranchSchedule(oracle: Oracle, ctx: Context) returns (ex: Executions, rounds: Rounds)
    requires oracle(BranchToNothing().nodes[0], ctx).branch == Some(false)
    ensures Schedule(BranchToNothing(), oracle, ctx, ex, rounds)
  {
    hide Ids, FindNode;
    var d := BranchToNothing();
    var e := d.edges[0];
    TwoNodes();
    ex := map[CHECK := Executed(oracle(d.nodes[0], ctx)), ACTION := Skipped];
    rounds := map[CHECK := 1, ACTION := 2];
    assert e in d.edges && forall x | x in d.edges :: x == e;
    assert e.outcome[0] == 't' && !EdgeActive(e, ex[CHECK]);
    assert Reaches(ex, rounds, e) == 2;
    assert IsRoot(d, CHECK) && !IsRoot(d, ACTION);
    assert Sound(d, oracle, ctx, ex, rounds, CHECK);
    assert Sound(d, oracle, ctx, ex, rounds, ACTION);
  }

  /** No workflow of fewer nodes or edges raises. */
  lemma RaisingNeedsTwoNodes(d: Definition, oracle: Oracle, ctx: Context, ex: Executions, rounds: Rounds)
    requires Closed(d) && Acyclic(d) && Schedule(d, oracle, ctx, ex, rounds) && SkippedLast(ex, rounds)
    ensures |d.nodes| >= |BranchToNothing().nodes| && |d.edges| >= |BranchToNothing().edges|
  {
    hide Schedule, SkippedLast, Closed, Acyclic, InLastWave;
    RaisesIffLastWaveLeadsOn(d, oracle, ctx, ex, rounds);
    ScheduleKeys(d, oracle, ctx, ex, rounds);
    var e :| e in d.edges && InLastWave(ex, rounds, e.source);
    EdgeNeedsTwoNodes(d, e);
  }

  lemma EdgeNeedsTwoNodes(d: Definition, e: Edge)
    requires Closed(d) && Acyclic(d) && e in d.edges
    ensures |d.nodes| >= 2
  {
    if e.source == e.target {
      var loop := [e.source, e.source];
      assert Linked(d.edges, loop[0], loop[1]);
      assert Cycle(d.edges, loop);
    }
    var i :| 0 <= i < |d.nodes| && d.nodes[i].id == e.source;
    var j :| 0 <= j < |d.nodes| && d.nodes[j].id == e.target;
  }

  lemma RootRunsFirst(d: Definition, oracle: Oracle, ctx: Context, ex: Executions, rounds: Rounds, n: NodeId)
    requires PartialSchedule(d, oracle, ctx, ex, rounds) && n in ex && IsRoot(d, n)
    ensures rounds[n] == 1 && ex[n] == Executed(oracle(FindNode(d.nodes, n), ctx))
  {
    assert Sound(d, oracle, ctx, ex, rounds, n);
  }

  lemma FollowsSource(d: Definition, oracle: Oracle, ctx: Context, ex: Executions, rounds: Rounds, e: Edge)
    requires PartialSchedule(d, oracle, ctx, ex, rounds) && e in d.edges && e.target in ex
    ensures e.source in ex && rounds[e.source] <= rounds[e.target]
    ensures ex[e.source].Executed? ==> rounds[e.source] < rounds[e.target]
  {
    assert Sound(d, oracle, ctx, ex, rounds, e.target);
    assert Reaches(ex, rounds, e) <= rounds[e.target];
  }
}
