/**
  The wave scheduler of the Data Factory executor and the declarative schedule
  it computes. Running one node is an oracle: a function of the node and of the
  context snapshot it is given.
 */
module WorkflowScheduler {
  import opened Wrappers
  import opened WorkflowGraph

  datatype Json = Null | Bool(b: bool)
    | Number(n: real) | Text(s: string) | List(items: seq<Json>) | Object(fields: map<string, Json>)
  type Context = map<string, Json>

  /** What running a node yields; only condition nodes set `branch`. */
  datatype NodeOutcome = NodeOutcome(succeeded: bool, branch: Option<bool>, extracted: Context)
  type Oracle = (Node, Context) -> NodeOutcome

  datatype Execution = Skipped | Executed(outcome: NodeOutcome)
  type Executions = map<NodeId, Execution>
  type Rounds = map<NodeId, nat>

  predicate EdgeActive(e: Edge, source: Execution) {
    match source
    case Skipped => false
    case Executed(o) =>
      if e.outcome == "always" then true
      else if e.outcome == "success" then o.succeeded
      else if e.outcome == "failure" then !o.succeeded
      else if e.outcome == "true" then o.branch == Some(true)
      else o.branch == Some(false)
  }

  function FindNode(nodes: seq<Node>, id: NodeId): (node: Node)
    requires id in Ids(nodes)
    ensures node in nodes && node.id == id
  {
    var last := nodes[|nodes| - 1];
    if last.id == id then last
    else
      assert nodes == nodes[..|nodes| - 1] + [last];
      assert Ids(nodes) == Ids(nodes[..|nodes| - 1]) + {last.id};
      FindNode(nodes[..|nodes| - 1], id)
  }

  // ------------------------------------------------ the declarative schedule

  predicate SourcesResolved(d: Definition, ex: Executions, n: NodeId) {
    forall e | e in d.edges && e.target == n :: e.source in ex
  }

  predicate Activated(d: Definition, ex: Executions, n: NodeId) {
    exists e | e in d.edges && e.target == n :: e.source in ex && EdgeActive(e, ex[e.source])
  }

  /** The earliest round in which the node behind edge `e` can be looked at. */
  function Reaches(ex: Executions, rounds: Rounds, e: Edge): nat
    requires e.source in ex && e.source in rounds
  {
    rounds[e.source] + if ex[e.source].Executed? then 1 else 0
  }

  /** `rounds[n] == max(1, max over in-edges e of Reaches(e))`. */
  ghost predicate RoundFits(d: Definition, ex: Executions, rounds: Rounds, n: NodeId)
    requires n in rounds && SourcesResolved(d, ex, n) && ex.Keys <= rounds.Keys
  {
    && 1 <= rounds[n]
    && (forall e | e in d.edges && e.target == n :: Reaches(ex, rounds, e) <= rounds[n])
    && (rounds[n] == 1 || exists e | e in d.edges && e.target == n :: Reaches(ex, rounds, e) == rounds[n])
  }

  predicate RanIn(ex: Executions, rounds: Rounds, n: NodeId, round: nat) {
    n in ex && n in rounds && ex[n].Executed? && rounds[n] == round
  }

  /** Adds the extractions of one round, later declarations overwriting earlier ones. */
  function MergeRound(nodes: seq<Node>, ex: Executions, rounds: Rounds, round: nat, ctx: Context): Context {
    if nodes == [] then ctx
    else
      var last := nodes[|nodes| - 1];
      var merged := MergeRound(nodes[..|nodes| - 1], ex, rounds, round, ctx);
      if RanIn(ex, rounds, last.id, round) then merged + ex[last.id].outcome.extracted else merged
  }

  /** The initial context updated by every node that ran before `round`. */
  function ContextBefore(d: Definition, ex: Executions, rounds: Rounds, ctx: Context, round: nat): Context {
    if round <= 1 then ctx
    else MergeRound(d.nodes, ex, rounds, round - 1, ContextBefore(d, ex, rounds, ctx, round - 1))
  }

  /** Node `n` is resolved the way the declarative reading of the workflow demands. */
  ghost predicate Sound(d: Definition, oracle: Oracle, ctx: Context, ex: Executions, rounds: Rounds, n: NodeId)
    requires ex.Keys == rounds.Keys
  {
    && n in ex && n in Ids(d.nodes)
    && SourcesResolved(d, ex, n)
    && RoundFits(d, ex, rounds, n)
    && (ex[n].Executed? <==> IsRoot(d, n) || Activated(d, ex, n))
    && (ex[n].Executed? ==> ex[n].outcome == oracle(FindNode(d.nodes, n), ContextBefore(d, ex, rounds, ctx, rounds[n])))
  }

  ghost predicate PartialSchedule(d: Definition, oracle: Oracle, ctx: Context, ex: Executions, rounds: Rounds) {
    && ex.Keys == rounds.Keys
    && forall n | n in ex :: Sound(d, oracle, ctx, ex, rounds, n)
  }

  /** Every node resolved: the whole meaning of a workflow run. */
  ghost predicate Schedule(d: Definition, oracle: Oracle, ctx: Context, ex: Executions, rounds: Rounds) {
    && PartialSchedule(d, oracle, ctx, ex, rounds)
    && ex.Keys == Ids(d.nodes)
  }

  /** Every node that ran did so before `round`. */
  ghost predicate AllRanBefore(ex: Executions, rounds: Rounds, round: nat)
    requires ex.Keys == rounds.Keys
  {
    forall m | m in ex && ex[m].Executed? :: rounds[m] < round
  }

  /** A skipped node is only discovered after the last wave has run. */
  ghost predicate SkippedLast(ex: Executions, rounds: Rounds)
    requires ex.Keys == rounds.Keys
  {
    exists n | n in ex :: ex[n].Skipped? && AllRanBefore(ex, rounds, rounds[n])
  }

  // ----------------------------------------------------- stability of a round

  /** The second pair of maps adds only entries of round `t + 1`. */
  ghost predicate Extends(ex: Executions, rounds: Rounds, ex': Executions, rounds': Rounds, t: nat) {
    && ex.Keys == rounds.Keys && ex'.Keys == rounds'.Keys
    && (forall n | n in ex :: n in ex' && ex'[n] == ex[n] && rounds'[n] == rounds[n])
    && (forall n | n in ex' && n !in ex :: rounds'[n] == t + 1)
  }

  lemma {:induction false} MergeStable(nodes: seq<Node>, ex: Executions, rounds: Rounds, ex': Executions,
                                       rounds': Rounds, t: nat, k: nat, ctx: Context)
    requires Extends(ex, rounds, ex', rounds', t) && k <= t
    ensures MergeRound(nodes, ex', rounds', k, ctx) == MergeRound(nodes, ex, rounds, k, ctx)
  {
    if nodes != [] {
      MergeStable(nodes[..|nodes| - 1], ex, rounds, ex', rounds', t, k, ctx);
    }
  }

  lemma {:induction false} ContextStable(d: Definition, ex: Executions, rounds: Rounds, ex': Executions,
                                         rounds': Rounds, t: nat, ctx: Context, r: nat)
    requires Extends(ex, rounds, ex', rounds', t) && r <= t + 1
    ensures ContextBefore(d, ex', rounds', ctx, r) == ContextBefore(d, ex, rounds, ctx, r)
  {
    if r > 1 {
      ContextStable(d, ex, rounds, ex', rounds', t, ctx, r - 1);
      MergeStable(d.nodes, ex, rounds, ex', rounds', t, r - 1, ContextBefore(d, ex, rounds, ctx, r - 1));
    }
  }

  lemma SoundStable(d: Definition, oracle: Oracle, ctx: Context, ex: Executions, rounds: Rounds, ex': Executions,
                    rounds': Rounds, t: nat, n: NodeId)
    requires Extends(ex, rounds, ex', rounds', t)
    requires Sound(d, oracle, ctx, ex, rounds, n) && rounds[n] <= t + 1
    ensures Sound(d, oracle, ctx, ex', rounds', n)
  {
    ContextStable(d, ex, rounds, ex', rounds', t, ctx, rounds[n]);
    assert forall e | e in d.edges && e.target == n :: Reaches(ex', rounds', e) == Reaches(ex, rounds, e);
  }

  // ------------------------------------------------------- the running rounds

  /** Some in-edge of `n` was not yet usable when round `t` ended. */
  ghost predicate FedLate(d: Definition, ex: Executions, rounds: Rounds, t: nat, n: NodeId)
    requires ex.Keys == rounds.Keys
  {
    exists e | e in d.edges && e.target == n ::
      e.source !in ex || (ex[e.source].Executed? && rounds[e.source] == t)
  }

  /** Nothing pending after `t` waves could have been resolved earlier. */
  ghost predicate RoundStart(d: Definition, ex: Executions, rounds: Rounds, t: nat) {
    && ex.Keys == rounds.Keys <= Ids(d.nodes)
    && (forall n | n in ex :: rounds[n] <= t)
    && (forall n | n in Ids(d.nodes) && n !in ex :: if IsRoot(d, n) then t == 0 else FedLate(d, ex, rounds, t, n))
  }

  /** The state inside the skip phase of round `t + 1`. */
  ghost predicate SkipPhase(d: Definition, ex0: Executions, rounds0: Rounds, ex: Executions, rounds: Rounds, t: nat) {
    && RoundStart(d, ex0, rounds0, t)
    && Extends(ex0, rounds0, ex, rounds, t)
    && ex.Keys <= Ids(d.nodes)
    && forall n | n in ex && n !in ex0 :: ex[n].Skipped?
  }

  predicate Skippable(d: Definition, ex: Executions, n: NodeId) {
    && (exists e | e in d.edges :: e.target == n)
    && SourcesResolved(d, ex, n) && !Activated(d, ex, n)
  }

  predicate Ready(d: Definition, ex: Executions, n: NodeId) {
    || (forall e | e in d.edges :: e.target != n)
    || (SourcesResolved(d, ex, n) && Activated(d, ex, n))
  }

  lemma RoundFitsNow(d: Definition, ex0: Executions, rounds0: Rounds, ex: Executions, rounds: Rounds, t: nat, n: NodeId)
    requires SkipPhase(d, ex0, rounds0, ex, rounds, t)
    requires n in Ids(d.nodes) && n !in ex && SourcesResolved(d, ex, n)
    ensures RoundFits(d, ex, rounds[n := t + 1], n)
  {
    hide EdgeActive, Ids;
    if !IsRoot(d, n) {
      assert FedLate(d, ex0, rounds0, t, n);
      var e :| e in d.edges && e.target == n
          && (e.source !in ex0 || (ex0[e.source].Executed? && rounds0[e.source] == t));
      assert Reaches(ex, rounds[n := t + 1], e) == t + 1;
    }
  }

  lemma NewlyResolvedIsSound(d: Definition, oracle: Oracle, ctx: Context, ex0: Executions, rounds0: Rounds,
                             ex1: Executions, rounds1: Rounds, ex: Executions, rounds: Rounds, t: nat, n: NodeId)
    requires SkipPhase(d, ex0, rounds0, ex1, rounds1, t)
    requires Extends(ex1, rounds1, ex, rounds, t)
    requires n in Ids(d.nodes) && n in ex && n !in ex1 && SourcesResolved(d, ex1, n)
    requires ex[n].Executed? <==> IsRoot(d, n) || Activated(d, ex1, n)
    requires ex[n].Executed? ==>
               ex[n].outcome == oracle(FindNode(d.nodes, n), ContextBefore(d, ex0, rounds0, ctx, t + 1))
    ensures Sound(d, oracle, ctx, ex, rounds, n)
  {
    hide RoundStart, EdgeActive, ContextBefore;
    RoundFitsNow(d, ex0, rounds0, ex1, rounds1, t, n);
    assert forall e | e in d.edges && e.target == n :: Reaches(ex, rounds, e) == Reaches(ex1, rounds1[n := t + 1], e);
    ContextStable(d, ex0, rounds0, ex, rounds, t, ctx, t + 1);
  }

  lemma AddSound(d: Definition, oracle: Oracle, ctx: Context, ex: Executions, rounds: Rounds, ex': Executions,
                 rounds': Rounds, t: nat, n: NodeId)
    requires PartialSchedule(d, oracle, ctx, ex, rounds) && forall m | m in ex :: rounds[m] <= t + 1
    requires Extends(ex, rounds, ex', rounds', t) && ex'.Keys == ex.Keys + {n}
    requires Sound(d, oracle, ctx, ex', rounds', n)
    ensures PartialSchedule(d, oracle, ctx, ex', rounds')
  {
    forall m | m in ex'
      ensures Sound(d, oracle, ctx, ex', rounds', m)
    {
      if m != n {
        SoundStable(d, oracle, ctx, ex, rounds, ex', rounds', t, m);
      }
    }
  }

  lemma ExtendOne(ex0: Executions, rounds0: Rounds, ex: Executions, rounds: Rounds, t: nat, n: NodeId, x: Execution)
    requires Extends(ex0, rounds0, ex, rounds, t) && n !in ex
    ensures Extends(ex0, rounds0, ex[n := x], rounds[n := t + 1], t)
    ensures Extends(ex, rounds, ex[n := x], rounds[n := t + 1], t)
  {
  }

  /** Resolving `n` in round `t + 1` leaves every earlier resolution sound and is itself sound. */
  lemma ResolveSoundly(d: Definition, oracle: Oracle, ctx: Context, ex0: Executions, rounds0: Rounds, ex1: Executions,
                       rounds1: Rounds, ex: Executions, rounds: Rounds, t: nat, n: NodeId, x: Execution)
    requires SkipPhase(d, ex0, rounds0, ex1, rounds1, t)
    requires Extends(ex1, rounds1, ex, rounds, t)
    requires PartialSchedule(d, oracle, ctx, ex, rounds)
    requires n in Ids(d.nodes) && n !in ex && SourcesResolved(d, ex1, n)
    requires x.Executed? <==> IsRoot(d, n) || Activated(d, ex1, n)
    requires x.Executed? ==> x.outcome == oracle(FindNode(d.nodes, n), ContextBefore(d, ex0, rounds0, ctx, t + 1))
    ensures PartialSchedule(d, oracle, ctx, ex[n := x], rounds[n := t + 1])
    ensures Extends(ex1, rounds1, ex[n := x], rounds[n := t + 1], t)
  {
    ExtendOne(ex1, rounds1, ex, rounds, t, n, x);
    NewlyResolvedIsSound(d, oracle, ctx, ex0, rounds0, ex1, rounds1, ex[n := x], rounds[n := t + 1], t, n);
    AddSound(d, oracle, ctx, ex, rounds, ex[n := x], rounds[n := t + 1], t, n);
  }

  lemma SkipOne(d: Definition, oracle: Oracle, ctx: Context, ex0: Executions, rounds0: Rounds, ex: Executions,
                rounds: Rounds, t: nat, n: NodeId)
    requires SkipPhase(d, ex0, rounds0, ex, rounds, t) && PartialSchedule(d, oracle, ctx, ex, rounds)
    requires n in Ids(d.nodes) && n !in ex && Skippable(d, ex, n)
    ensures SkipPhase(d, ex0, rounds0, ex[n := Skipped], rounds[n := t + 1], t)
    ensures PartialSchedule(d, oracle, ctx, ex[n := Skipped], rounds[n := t + 1])
  {
    hide PartialSchedule, RoundStart;
    ExtendOne(ex0, rounds0, ex, rounds, t, n, Skipped);
    ResolveSoundly(d, oracle, ctx, ex0, rounds0, ex, rounds, ex, rounds, t, n, Skipped);
  }

  // ------------------------------------------------------------ the scheduler

  datatype Status = SUCCEEDED | FAILED | SKIPPED
  datatype RunOutcome =
    | NoProgress
    | Completed(results: seq<(NodeId, Status)>, failed: bool, context: Context)

  function StatusOf(x: Execution): Status {
    match x
    case Skipped => SKIPPED
    case Executed(o) => if o.succeeded then SUCCEEDED else FAILED
  }

  /** One scan over the nodes in declaration order, skipping what can be skipped. */
  method SkipScan(d: Definition, oracle: Oracle, ghost ctx: Context, ghost ex0: Executions, ghost rounds0: Rounds,
                  ghost t: nat, exBefore: Executions, ghost roundsBefore: Rounds, pendingBefore: set<NodeId>)
    returns (changed: bool, ex: Executions, ghost rounds: Rounds, pending: set<NodeId>)
    requires SkipPhase(d, ex0, rounds0, exBefore, roundsBefore, t)
    requires PartialSchedule(d, oracle, ctx, exBefore, roundsBefore)
    requires pendingBefore == Ids(d.nodes) - exBefore.Keys
    ensures SkipPhase(d, ex0, rounds0, ex, rounds, t)
    ensures PartialSchedule(d, oracle, ctx, ex, rounds)
    ensures pending == Ids(d.nodes) - ex.Keys
    ensures changed ==> pending < pendingBefore
    ensures !changed ==> pending == pendingBefore && forall n | n in pending :: !Skippable(d, ex, n)
  {
    hide PartialSchedule, Skippable, RoundStart;
    changed, ex, rounds, pending := false, exBefore, roundsBefore, pendingBefore;
    for i := 0 to |d.nodes|
      invariant SkipPhase(d, ex0, rounds0, ex, rounds, t)
      invariant PartialSchedule(d, oracle, ctx, ex, rounds)
      invariant pending == Ids(d.nodes) - ex.Keys
      invariant if changed then pending < pendingBefore else pending == pendingBefore
      invariant !changed ==> forall j | 0 <= j < i && d.nodes[j].id in pending :: !Skippable(d, ex, d.nodes[j].id)
    {
      var n := d.nodes[i].id;
      if n in pending && Skippable(d, ex, n) {
        SkipOne(d, oracle, ctx, ex0, rounds0, ex, rounds, t, n);
        ex, rounds, pending, changed := ex[n := Skipped], rounds[n := t + 1], pending - {n}, true;
      }
    }
  }

  lemma SkipPhaseOpens(d: Definition, ex0: Executions, rounds0: Rounds, t: nat)
    requires RoundStart(d, ex0, rounds0, t)
    ensures SkipPhase(d, ex0, rounds0, ex0, rounds0, t)
  {
  }

  /** Scans until a scan changes nothing. */
  method SkipFixpoint(d: Definition, oracle: Oracle, ghost ctx: Context, ghost t: nat,
                      ex0: Executions, ghost rounds0: Rounds, pending0: set<NodeId>)
    returns (ex: Executions, ghost rounds: Rounds, pending: set<NodeId>)
    requires RoundStart(d, ex0, rounds0, t)
    requires PartialSchedule(d, oracle, ctx, ex0, rounds0)
    requires pending0 == Ids(d.nodes) - ex0.Keys
    ensures SkipPhase(d, ex0, rounds0, ex, rounds, t)
    ensures PartialSchedule(d, oracle, ctx, ex, rounds)
    ensures pending == Ids(d.nodes) - ex.Keys <= pending0
    ensures forall n | n in pending :: !Skippable(d, ex, n)
  {
    hide PartialSchedule, Skippable, RoundStart, SkipPhase, Extends;
    SkipPhaseOpens(d, ex0, rounds0, t);
    ex, rounds, pending := ex0, rounds0, pending0;
    var changed := true;
    while changed
      invariant SkipPhase(d, ex0, rounds0, ex, rounds, t)
      invariant PartialSchedule(d, oracle, ctx, ex, rounds)
      invariant pending == Ids(d.nodes) - ex.Keys <= pending0
      invariant !changed ==> forall n | n in pending :: !Skippable(d, ex, n)
      decreases pending, changed
    {
      changed, ex, rounds, pending := SkipScan(d, oracle, ctx, ex0, rounds0, t, ex, rounds, pending);
    }
  }

  method CollectReady(d: Definition, ex: Executions, pending: set<NodeId>) returns (ready: seq<Node>)
    requires DistinctIds(d.nodes) && pending <= Ids(d.nodes)
    ensures DistinctIds(ready) && forall x | x in ready :: x in d.nodes
    ensures forall n :: n in Ids(ready) <==> n in pending && Ready(d, ex, n)
  {
    hide Ready;
    ready := [];
    for i := 0 to |d.nodes|
      invariant DistinctIds(ready)
      invariant forall x | x in ready :: exists j | 0 <= j < i :: d.nodes[j] == x
      invariant forall x | x in ready :: x.id in pending && Ready(d, ex, x.id)
      invariant forall j | 0 <= j < i && d.nodes[j].id in pending && Ready(d, ex, d.nodes[j].id) :: d.nodes[j] in ready
    {
      if d.nodes[i].id in pending && Ready(d, ex, d.nodes[i].id) {
        ready := ready + [d.nodes[i]];
      }
    }
    forall n
      ensures n in Ids(ready) <==> n in pending && Ready(d, ex, n)
    {
      if n in pending && Ready(d, ex, n) {
        var j :| 0 <= j < |d.nodes| && d.nodes[j].id == n;
        assert d.nodes[j] in ready;
      }
    }
  }

  function ParallelLimit(node: Node): int {
    if node.maxConcurrency.Some? then node.maxConcurrency.value else 2
  }

  /** `e` is an active edge from a parallel node into `n`. */
  predicate FromParallel(d: Definition, ex: Executions, e: Edge, n: NodeId) {
    && e in d.edges && e.target == n
    && e.source in Ids(d.nodes) && FindNode(d.nodes, e.source).kind == "parallel"
    && e.source in ex && EdgeActive(e, ex[e.source])
  }

  function CapOf(d: Definition, e: Edge): int {
    if e.source in Ids(d.nodes) then ParallelLimit(FindNode(d.nodes, e.source)) else 0
  }

  ghost predicate IsCap(d: Definition, ready: seq<Node>, ex: Executions, cap: int) {
    exists x, e | x in ready && FromParallel(d, ex, e, x.id) :: CapOf(d, e) == cap
  }

  method CapsInto(d: Definition, ex: Executions, n: NodeId) returns (caps: seq<int>)
    requires Closed(d) && SourcesResolved(d, ex, n)
    ensures forall cap | cap in caps :: exists e | FromParallel(d, ex, e, n) :: CapOf(d, e) == cap
    ensures forall e | FromParallel(d, ex, e, n) :: CapOf(d, e) in caps
  {
    caps := [];
    for j := 0 to |d.edges|
      invariant forall cap | cap in caps :: exists e | FromParallel(d, ex, e, n) :: CapOf(d, e) == cap
      invariant forall k | 0 <= k < j && FromParallel(d, ex, d.edges[k], n) :: CapOf(d, d.edges[k]) in caps
    {
      var e := d.edges[j];
      if e.target == n {
        var source := FindNode(d.nodes, e.source);
        if source.kind == "parallel" && EdgeActive(e, ex[e.source]) {
          assert FromParallel(d, ex, e, n);
          caps := caps + [ParallelLimit(source)];
        }
      }
    }
  }

  method Least(values: seq<int>) returns (least: int)
    requires values != []
    ensures least in values && forall v | v in values :: least <= v
  {
    least := values[0];
    for i := 0 to |values|
      invariant least in values && forall k | 0 <= k < i :: least <= values[k]
    {
      if values[i] < least {
        least := values[i];
      }
    }
  }

  /** How many nodes of the wave may run at once: its least cap, but at least one. */
  method WaveLimit(d: Definition, maxConcurrency: int, ready: seq<Node>, ex: Executions) returns (limit: nat)
    requires Closed(d) && forall x | x in ready :: SourcesResolved(d, ex, x.id)
    ensures 1 <= limit && (limit == 1 || (limit <= maxConcurrency && limit <= |ready|))
    ensures limit == 1 || forall cap | IsCap(d, ready, ex, cap) :: limit <= cap
    ensures exists least: int :: (least == maxConcurrency || least == |ready| || IsCap(d, ready, ex, least))
                              && limit == if least < 1 then 1 else least
  {
    hide FromParallel, CapOf, SourcesResolved;
    var limits := [maxConcurrency];
    for i := 0 to |ready|
      invariant maxConcurrency in limits
      invariant forall v | v in limits :: v == maxConcurrency || IsCap(d, ready, ex, v)
      invariant forall k, e | 0 <= k < i && FromParallel(d, ex, e, ready[k].id) :: CapOf(d, e) in limits
    {
      assert ready[i] in ready;
      var caps := CapsInto(d, ex, ready[i].id);
      limits := limits + caps;
    }
    var all := [|ready|] + limits;
    assert all[0] == |ready| && forall v | v in limits :: v in all;
    assert |ready| in all && maxConcurrency in all;
    forall cap | IsCap(d, ready, ex, cap)
      ensures cap in limits
    {
      var x, e :| x in ready && FromParallel(d, ex, e, x.id) && CapOf(d, e) == cap;
    }
    var least := Least(all);
    limit := if least < 1 then 1 else least;
  }

  lemma RunOne(d: Definition, oracle: Oracle, ctx: Context, ex0: Executions, rounds0: Rounds,
               ex1: Executions, rounds1: Rounds, ex: Executions, rounds: Rounds, t: nat, node: Node)
    requires DistinctIds(d.nodes) && node in d.nodes
    requires SkipPhase(d, ex0, rounds0, ex1, rounds1, t)
    requires Extends(ex1, rounds1, ex, rounds, t) && PartialSchedule(d, oracle, ctx, ex, rounds)
    requires node.id !in ex && Ready(d, ex1, node.id)
    ensures var x := Executed(oracle(node, ContextBefore(d, ex0, rounds0, ctx, t + 1)));
            && Extends(ex1, rounds1, ex[node.id := x], rounds[node.id := t + 1], t)
            && PartialSchedule(d, oracle, ctx, ex[node.id := x], rounds[node.id := t + 1])
  {
    hide PartialSchedule, RoundStart, Sound;
    var x := Executed(oracle(node, ContextBefore(d, ex0, rounds0, ctx, t + 1)));
    assert FindNode(d.nodes, node.id) == node;
    ResolveSoundly(d, oracle, ctx, ex0, rounds0, ex1, rounds1, ex, rounds, t, node.id, x);
  }

  lemma WaveStarts(d: Definition, ex0: Executions, rounds0: Rounds, ex: Executions, rounds: Rounds, t: nat)
    requires SkipPhase(d, ex0, rounds0, ex, rounds, t)
    ensures Extends(ex, rounds, ex, rounds, t)
  {
  }

  /** Runs all ready nodes against one snapshot and records the results. */
  method RunWave(d: Definition, oracle: Oracle, ghost ctx: Context, ghost ex0: Executions, ghost rounds0: Rounds,
                 ghost t: nat, ex1: Executions, ghost rounds1: Rounds, pending1: set<NodeId>, ready: seq<Node>,
                 snapshot: Context)
    returns (ex: Executions, ghost rounds: Rounds, pending: set<NodeId>)
    requires DistinctIds(d.nodes)
    requires SkipPhase(d, ex0, rounds0, ex1, rounds1, t) && PartialSchedule(d, oracle, ctx, ex1, rounds1)
    requires pending1 == Ids(d.nodes) - ex1.Keys
    requires DistinctIds(ready) && forall x | x in ready :: x in d.nodes
    requires forall n :: n in Ids(ready) <==> n in pending1 && Ready(d, ex1, n)
    requires snapshot == ContextBefore(d, ex0, rounds0, ctx, t + 1)
    ensures Extends(ex1, rounds1, ex, rounds, t) && PartialSchedule(d, oracle, ctx, ex, rounds)
    ensures ex.Keys == ex1.Keys + Ids(ready) && pending == Ids(d.nodes) - ex.Keys
    ensures forall n | n in Ids(ready) :: n in ex && ex[n].Executed?
  {
    hide PartialSchedule, RoundStart, Ready, Extends, SkipPhase, ContextBefore;
    WaveStarts(d, ex0, rounds0, ex1, rounds1, t);
    var completed := seq(|ready|, i requires 0 <= i < |ready| => oracle(ready[i], snapshot));
    ex, rounds, pending := ex1, rounds1, pending1;
    for i := 0 to |ready|
      invariant Extends(ex1, rounds1, ex, rounds, t) && PartialSchedule(d, oracle, ctx, ex, rounds)
      invariant ex.Keys == ex1.Keys + Ids(ready[..i]) && pending == Ids(d.nodes) - ex.Keys
      invariant forall n | n in Ids(ready[..i]) :: n in ex && ex[n].Executed?
    {
      var node := ready[i];
      assert node in ready && node.id in Ids(ready);
      assert ready[..i + 1] == ready[..i] + [node];
      assert Ids(ready[..i + 1]) == Ids(ready[..i]) + {node.id};
      RunOne(d, oracle, ctx, ex0, rounds0, ex1, rounds1, ex, rounds, t, node);
      ex, rounds, pending := ex[node.id := Executed(completed[i])], rounds[node.id := t + 1], pending - {node.id};
    }
    assert ready[..|ready|] == ready;
  }

  // ------------------------------------------------------- between two rounds

  lemma NextRound(d: Definition, ex0: Executions, rounds0: Rounds, ex1: Executions, rounds1: Rounds,
                  ex: Executions, rounds: Rounds, t: nat)
    requires SkipPhase(d, ex0, rounds0, ex1, rounds1, t)
    requires Extends(ex1, rounds1, ex, rounds, t)
    requires forall n | n in Ids(d.nodes) && n !in ex1 :: !Skippable(d, ex1, n)
    requires forall n :: n in ex && n !in ex1 <==> n in Ids(d.nodes) && n !in ex1 && Ready(d, ex1, n)
    requires forall n | n in ex && n !in ex1 :: ex[n].Executed?
    ensures RoundStart(d, ex, rounds, t + 1)
  {
    forall n | n in Ids(d.nodes) && n !in ex
      ensures !IsRoot(d, n) && FedLate(d, ex, rounds, t + 1, n)
    {
      assert !Ready(d, ex1, n) && !Skippable(d, ex1, n);
      var e :| e in d.edges && e.target == n && e.source !in ex1;
    }
  }

  /** In an acyclic graph a pending node with nothing to skip means a ready node. */
  lemma SomeoneIsReady(d: Definition, ex: Executions, order: seq<NodeId>, k: nat) returns (n: NodeId)
    requires TopologicalOrder(d, order)
    requires forall m | m in Ids(d.nodes) && m !in ex :: !Skippable(d, ex, m)
    requires k < |order| && order[k] !in ex
    ensures n in Ids(d.nodes) && n !in ex && Ready(d, ex, n)
  {
    assert order[k] in Elements(order);
    if j :| 0 <= j < k && order[j] !in ex {
      n := SomeoneIsReady(d, ex, order, j);
    } else {
      n := order[k];
      forall e | e in d.edges && e.target == n
        ensures e.source in ex
      {
        assert e.source in order[..k];
      }
      assert !Skippable(d, ex, n);
    }
  }

  lemma PendingMeansReady(d: Definition, ex: Executions, pending: set<NodeId>)
    requires Closed(d) && Acyclic(d)
    requires pending == Ids(d.nodes) - ex.Keys && pending != {}
    requires forall m | m in pending :: !Skippable(d, ex, m)
    ensures exists n | n in pending :: Ready(d, ex, n)
  {
    AcyclicIffOrderable(d);
    var order :| TopologicalOrder(d, order);
    var m :| m in pending;
    assert m in Elements(order);
    var k :| 0 <= k < |order| && order[k] == m;
    var n := SomeoneIsReady(d, ex, order, k);
  }

  lemma {:induction false} MergeNothing(nodes: seq<Node>, ex: Executions, rounds: Rounds, k: nat, ctx: Context)
    requires forall n :: !RanIn(ex, rounds, n, k)
    ensures MergeRound(nodes, ex, rounds, k, ctx) == ctx
  {
    if nodes != [] {
      MergeNothing(nodes[..|nodes| - 1], ex, rounds, k, ctx);
    }
  }

  /** Once every node that ran lies behind, the context no longer changes. */
  lemma {:induction false} ContextSaturates(d: Definition, ex: Executions, rounds: Rounds, ctx: Context, r0: nat,
                                            r: nat)
    requires ex.Keys == rounds.Keys && 1 <= r0 <= r && AllRanBefore(ex, rounds, r0)
    ensures ContextBefore(d, ex, rounds, ctx, r) == ContextBefore(d, ex, rounds, ctx, r0)
  {
    if r > r0 {
      ContextSaturates(d, ex, rounds, ctx, r0, r - 1);
      MergeNothing(d.nodes, ex, rounds, r - 1, ContextBefore(d, ex, rounds, ctx, r - 1));
    }
  }

  lemma SameIdSameNode(nodes: seq<Node>, ready: seq<Node>, node: Node)
    requires DistinctIds(nodes) && node in nodes && forall x | x in ready :: x in nodes
    ensures node in ready <==> node.id in Ids(ready)
  {
    if node.id in Ids(ready) {
      var k :| 0 <= k < |ready| && ready[k].id == node.id;
      assert ready[k] in ready;
      assert ready[k] == node;
    }
  }

  method MergeExtractions(d: Definition, ex: Executions, ghost rounds: Rounds, ready: seq<Node>, ghost t: nat,
                          before: Context)
    returns (context: Context)
    requires DistinctIds(d.nodes) && forall x | x in ready :: x in d.nodes
    requires forall n :: n in Ids(ready) <==> RanIn(ex, rounds, n, t + 1)
    ensures context == MergeRound(d.nodes, ex, rounds, t + 1, before)
  {
    context := before;
    for i := 0 to |d.nodes|
      invariant context == MergeRound(d.nodes[..i], ex, rounds, t + 1, before)
    {
      var node := d.nodes[i];
      SameIdSameNode(d.nodes, ready, node);
      assert d.nodes[..i + 1][..i] == d.nodes[..i];
      if node in ready {
        context := context + ex[node.id].outcome.extracted;
      }
    }
    assert d.nodes[..|d.nodes|] == d.nodes;
  }

  function Results(nodes: seq<Node>, ex: Executions): (results: seq<(NodeId, Status)>)
    requires Ids(nodes) <= ex.Keys
    ensures |results| == |nodes|
    ensures forall i | 0 <= i < |nodes| :: results[i] == (nodes[i].id, StatusOf(ex[nodes[i].id]))
  {
    seq(|nodes|, i requires 0 <= i < |nodes| => (nodes[i].id, StatusOf(ex[nodes[i].id])))
  }

  /** What holds between rounds: `t` waves have run and the last one ran something. */
  ghost predicate BetweenRounds(d: Definition, oracle: Oracle, ctx: Context, ex: Executions, rounds: Rounds, t: nat,
                                context: Context)
  {
    && RoundStart(d, ex, rounds, t)
    && PartialSchedule(d, oracle, ctx, ex, rounds)
    && context == ContextBefore(d, ex, rounds, ctx, t + 1)
    && (t >= 1 ==> exists n :: RanIn(ex, rounds, n, t))
  }

  /** Runs one complete round: skip phase, wave, merge. `progressed` is false if nothing was left to run. */
  method RunRound(d: Definition, oracle: Oracle, maxConcurrency: int, ghost ctx: Context, ghost t: nat,
                  ex0: Executions, ghost rounds0: Rounds, pending0: set<NodeId>, context0: Context)
    returns (progressed: bool, ex: Executions, ghost rounds: Rounds, pending: set<NodeId>, context: Context)
    requires DistinctIds(d.nodes) && Closed(d) && Acyclic(d)
    requires BetweenRounds(d, oracle, ctx, ex0, rounds0, t, context0)
    requires pending0 == Ids(d.nodes) - ex0.Keys && pending0 != {}
    ensures pending == Ids(d.nodes) - ex.Keys
    ensures progressed ==> pending < pending0 && BetweenRounds(d, oracle, ctx, ex, rounds, t + 1, context)
    ensures !progressed ==> (&& pending == {} && PartialSchedule(d, oracle, ctx, ex, rounds)
                             && SkipPhase(d, ex0, rounds0, ex, rounds, t))
  {
    assert RoundStart(d, ex0, rounds0, t) && PartialSchedule(d, oracle, ctx, ex0, rounds0);
    assert context0 == ContextBefore(d, ex0, rounds0, ctx, t + 1);
    assert ex0.Keys == rounds0.Keys;
    hide PartialSchedule, RoundStart, Ready, Skippable, Acyclic, IsCap, BetweenRounds, SkipPhase, Closed,
    SourcesResolved;
    var ex1, rounds1, pending1 := SkipFixpoint(d, oracle, ctx, t, ex0, rounds0, pending0);
    var ready := CollectReady(d, ex1, pending1);
    context := context0;
    if ready == [] {
      if pending1 != {} {
        PendingMeansReady(d, ex1, pending1);
      }
      return false, ex1, rounds1, pending1, context;
    }
    ReadyAreResolved(d, ex1, ready);
    var limit := WaveLimit(d, maxConcurrency, ready, ex1);
    var snapshot := context;
    ex, rounds, pending := RunWave(d, oracle, ctx, ex0, rounds0, t, ex1, rounds1, pending1, ready, snapshot);
    RanThisRound(d, ex0, rounds0, ex1, rounds1, ex, rounds, t, ready);
    context := MergeExtractions(d, ex, rounds, ready, t, context);
    WaveCompletes(d, oracle, ctx, ex0, rounds0, ex1, rounds1, ex, rounds, t, ready, context);
    assert ready[0].id in Ids(ready);
    return true, ex, rounds, pending, context;
  }

  lemma WaveCompletes(d: Definition, oracle: Oracle, ctx: Context, ex0: Executions, rounds0: Rounds, ex1: Executions,
                      rounds1: Rounds, ex: Executions, rounds: Rounds, t: nat, ready: seq<Node>, context: Context)
    requires SkipPhase(d, ex0, rounds0, ex1, rounds1, t) && Extends(ex1, rounds1, ex, rounds, t)
    requires Extends(ex0, rounds0, ex, rounds, t)
    requires PartialSchedule(d, oracle, ctx, ex, rounds)
    requires forall n | n in Ids(d.nodes) && n !in ex1 :: !Skippable(d, ex1, n)
    requires forall n :: n in Ids(ready) <==> n in Ids(d.nodes) && n !in ex1 && Ready(d, ex1, n)
    requires ex.Keys == ex1.Keys + Ids(ready) && forall n | n in Ids(ready) :: ex[n].Executed?
    requires forall n :: n in Ids(ready) <==> RanIn(ex, rounds, n, t + 1)
    requires ready != []
    requires context == MergeRound(d.nodes, ex, rounds, t + 1, ContextBefore(d, ex0, rounds0, ctx, t + 1))
    ensures BetweenRounds(d, oracle, ctx, ex, rounds, t + 1, context)
  {
    hide PartialSchedule, Skippable, Ready;
    ContextStable(d, ex0, rounds0, ex, rounds, t, ctx, t + 1);
    NextRound(d, ex0, rounds0, ex1, rounds1, ex, rounds, t);
    assert ready[0].id in Ids(ready);
    assert RanIn(ex, rounds, ready[0].id, t + 1);
  }

  lemma ReadyAreResolved(d: Definition, ex: Executions, ready: seq<Node>)
    requires forall n | n in Ids(ready) :: Ready(d, ex, n)
    ensures forall x | x in ready :: SourcesResolved(d, ex, x.id)
  {
    forall x | x in ready
      ensures SourcesResolved(d, ex, x.id)
    {
      assert x.id in Ids(ready);
      assert Ready(d, ex, x.id);
    }
  }

  lemma RanThisRound(d: Definition, ex0: Executions, rounds0: Rounds, ex1: Executions, rounds1: Rounds,
                     ex: Executions, rounds: Rounds, t: nat, ready: seq<Node>)
    requires SkipPhase(d, ex0, rounds0, ex1, rounds1, t) && Extends(ex1, rounds1, ex, rounds, t)
    requires ex.Keys == ex1.Keys + Ids(ready) && Ids(ready) !! ex1.Keys
    requires forall n | n in Ids(ready) :: ex[n].Executed?
    ensures forall n :: n in Ids(ready) <==> RanIn(ex, rounds, n, t + 1)
    ensures Extends(ex0, rounds0, ex, rounds, t)
  {
    forall n
      ensures n in Ids(ready) <==> RanIn(ex, rounds, n, t + 1)
    {
      if n in ex1 && n in ex0 {
        assert rounds0[n] <= t;
      }
    }
  }

  lemma SkippedAfterLastWave(d: Definition, oracle: Oracle, ctx: Context, ex0: Executions, rounds0: Rounds, t: nat,
                             context: Context, ex: Executions, rounds: Rounds)
    requires BetweenRounds(d, oracle, ctx, ex0, rounds0, t, context)
    requires SkipPhase(d, ex0, rounds0, ex, rounds, t) && PartialSchedule(d, oracle, ctx, ex, rounds)
    requires Ids(d.nodes) - ex0.Keys != {} && Ids(d.nodes) - ex.Keys == {}
    ensures Schedule(d, oracle, ctx, ex, rounds)
    ensures SkippedLast(ex, rounds)
  {
    hide PartialSchedule;
    NothingLeft(ex.Keys, Ids(d.nodes));
    var n :| n in Ids(d.nodes) && n !in ex0;
    assert n !in Ids(d.nodes) - ex.Keys;
    assert n in ex && ex[n].Skipped? && AllRanBefore(ex, rounds, rounds[n]);
  }

  lemma NothingSkippedLate(d: Definition, oracle: Oracle, ctx: Context, ex: Executions, rounds: Rounds, t: nat,
                           context: Context)
    requires BetweenRounds(d, oracle, ctx, ex, rounds, t, context)
    requires Ids(d.nodes) - ex.Keys == {}
    ensures Schedule(d, oracle, ctx, ex, rounds)
    ensures !SkippedLast(ex, rounds)
  {
    forall n | n in ex
      ensures !AllRanBefore(ex, rounds, rounds[n])
    {
      assert Sound(d, oracle, ctx, ex, rounds, n);
      var m :| RanIn(ex, rounds, m, t);
    }
    NothingLeft(ex.Keys, Ids(d.nodes));
  }

  lemma ContextIsFinal(d: Definition, oracle: Oracle, ctx: Context, ex: Executions, rounds: Rounds, t: nat,
                       context: Context)
    requires BetweenRounds(d, oracle, ctx, ex, rounds, t, context)
    ensures forall r: nat | AllRanBefore(ex, rounds, r) :: context == ContextBefore(d, ex, rounds, ctx, r)
  {
    hide PartialSchedule;
    forall r: nat | AllRanBefore(ex, rounds, r)
      ensures context == ContextBefore(d, ex, rounds, ctx, r)
    {
      if t >= 1 {
        var m :| RanIn(ex, rounds, m, t);
        assert rounds[m] < r;
      }
      if r >= t + 1 {
        assert AllRanBefore(ex, rounds, t + 1);
        ContextSaturates(d, ex, rounds, ctx, t + 1, r);
      }
    }
  }

  /** The outer loop: rounds until nothing is pending or a round finds nothing to run. */
  method RunRounds(d: Definition, oracle: Oracle, maxConcurrency: int, context0: Context)
    returns (progressed: bool, ex: Executions, ghost rounds: Rounds, context: Context)
    requires DistinctIds(d.nodes) && Closed(d) && Acyclic(d)
    ensures Schedule(d, oracle, context0, ex, rounds)
    ensures !progressed <==> SkippedLast(ex, rounds)
    ensures progressed ==>
              forall r: nat | AllRanBefore(ex, rounds, r) :: context == ContextBefore(d, ex, rounds, context0, r)
  {
    hide Acyclic, Closed, DistinctIds, Schedule, PartialSchedule, SkippedLast, BetweenRounds, SkipPhase, AllRanBefore;
    ex, rounds := map[], map[];
    var pending := Ids(d.nodes);
    progressed, context := true, context0;
    ghost var t := 0;
    NothingResolvedYet(d, oracle, context0);
    while pending != {}
      invariant pending == Ids(d.nodes) - ex.Keys
      invariant progressed && BetweenRounds(d, oracle, context0, ex, rounds, t, context)
      decreases pending
    {
      ghost var ex0, rounds0, c0 := ex, rounds, context;
      progressed, ex, rounds, pending,
      context := RunRound(d, oracle, maxConcurrency, context0, t, ex, rounds, pending, context);
      if !progressed {
        SkippedAfterLastWave(d, oracle, context0, ex0, rounds0, t, c0, ex, rounds);
        return;
      }
      t := t + 1;
    }
    NothingSkippedLate(d, oracle, context0, ex, rounds, t, context);
    ContextIsFinal(d, oracle, context0, ex, rounds, t, context);
  }

  /**
    The graph runner. Its result is the schedule of the workflow, unless the
    schedule skips a node after its last wave, in which case it raises.
   */
  method RunGraph(d: Definition, oracle: Oracle, maxConcurrency: int, context0: Context)
    returns (outcome: RunOutcome, ex: Executions, ghost rounds: Rounds)
    requires WellFormed(d) && Acyclic(d)
    ensures Schedule(d, oracle, context0, ex, rounds)
    ensures outcome == NoProgress <==> SkippedLast(ex, rounds)
    ensures outcome.Completed? ==> outcome.results == Results(d.nodes, ex)
    ensures outcome.Completed? ==> (outcome.failed <==> exists n | n in ex :: StatusOf(ex[n]) == FAILED)
    ensures outcome.Completed? ==>
              forall r: nat | AllRanBefore(ex, rounds, r) ::
                       outcome.context == ContextBefore(d, ex, rounds, context0, r)
  {
    SoundNodesAreDistinct(d.nodes);
    SoundEdgesAreClosed(d);
    hide Acyclic, WellFormed, PartialSchedule, SkippedLast, AllRanBefore, Closed;
    var progressed, context;
    progressed, ex, rounds, context := RunRounds(d, oracle, maxConcurrency, context0);
    outcome := if !progressed then NoProgress
               else Completed(Results(d.nodes, ex), exists n | n in ex :: StatusOf(ex[n]) == FAILED, context);
  }

  lemma NothingResolvedYet(d: Definition, oracle: Oracle, ctx: Context)
    requires Closed(d)
    ensures BetweenRounds(d, oracle, ctx, map[], map[], 0, ctx)
  {
    forall n | n in Ids(d.nodes) && !IsRoot(d, n)
      ensures FedLate(d, map[], map[], 0, n)
    {
      var e :| e in d.edges && e.target == n;
    }
  }
}
