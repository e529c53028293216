/**
  Data Factory workflow definitions and the validator that admits only
  well-formed, acyclic, labelled multigraphs.
 */
module WorkflowGraph {
  import opened Wrappers

  const MAX_WORKFLOW_NODES := 100
  const MAX_WORKFLOW_EDGES := 500

  /** Node and edge identifiers; whether the text is admissible is checked by the validator. */
  datatype Identifier = Identifier(text: string)
  type NodeId = Identifier

  datatype NodeType = Http | Condition | Parallel
  datatype Outcome = Always | OnSuccess | OnFailure | OnTrue | OnFalse

  /** `maxConcurrency` is the one configuration entry the scheduler itself reads. */
  datatype Node = Node(id: NodeId, kind: string, maxConcurrency: Option<int>)
  datatype Edge = Edge(id: Identifier, source: NodeId, target: NodeId, outcome: string)
  datatype Definition = Definition(nodes: seq<Node>, edges: seq<Edge>)

  function ParseType(kind: string): Option<NodeType> {
    if kind == "http" then Some(Http)
    else if kind == "condition" then Some(Condition)
    else if kind == "parallel" then Some(Parallel)
    else None
  }

  function ParseOutcome(outcome: string): Option<Outcome> {
    if outcome == "always" then Some(Always)
    else if outcome == "success" then Some(OnSuccess)
    else if outcome == "failure" then Some(OnFailure)
    else if outcome == "true" then Some(OnTrue)
    else if outcome == "false" then Some(OnFalse)
    else None
  }

  predicate Compatible(kind: NodeType, outcome: Outcome) {
    match kind
    case Http => outcome in {Always, OnSuccess, OnFailure}
    case Condition => outcome in {Always, OnTrue, OnFalse}
    case Parallel => outcome == Always
  }

  predicate IsAlphanumeric(c: char) {
    'A' <= c <= 'Z' || 'a' <= c <= 'z' || '0' <= c <= '9'
  }

  predicate ValidIdentifier(id: Identifier) {
    && 1 <= |id.text| <= 255
    && IsAlphanumeric(id.text[0])
    && forall i | 1 <= i < |id.text| :: IsAlphanumeric(id.text[i]) || id.text[i] in "._:-"
  }

  // ---------------------------------------------------------------- defects

  datatype Defect =
    | TooManyNodes | TooManyEdges
    | InvalidNodeId(position: nat) | InvalidNodeType(position: nat) | DuplicateNodeId(position: nat)
    | InvalidEdgeId(position: nat) | DuplicateEdgeId(position: nat) | UnknownEndpoint(position: nat)
    | InvalidOutcome(position: nat) | IncompatibleOutcome(position: nat)
    | NoRoot | NotAcyclic

  datatype Verdict = Accepted | Rejected(defect: Defect)

  function Ids(nodes: seq<Node>): set<NodeId> {
    set i | 0 <= i < |nodes| :: nodes[i].id
  }

  /** What is wrong with node `i`, given the nodes declared before it. */
  function NodeDefect(nodes: seq<Node>, i: nat): Option<Defect>
    requires i < |nodes|
  {
    if !ValidIdentifier(nodes[i].id) then Some(InvalidNodeId(i))
    else if ParseType(nodes[i].kind).None? then Some(InvalidNodeType(i))
    else if nodes[i].id in Ids(nodes[..i]) then Some(DuplicateNodeId(i))
    else None
  }

  predicate NodesSound(nodes: seq<Node>) {
    forall i | 0 <= i < |nodes| :: NodeDefect(nodes, i).None?
  }

  predicate DistinctIds(nodes: seq<Node>) {
    forall i, j | 0 <= i < j < |nodes| :: nodes[i].id != nodes[j].id
  }

  lemma SoundNodesAreDistinct(nodes: seq<Node>)
    requires NodesSound(nodes)
    ensures DistinctIds(nodes)
  {
    forall i, j | 0 <= i < j < |nodes|
      ensures nodes[i].id != nodes[j].id
    {
      assert NodeDefect(nodes, j).None?;
      assert nodes[..j][i] == nodes[i];
    }
  }

  function KindOf(nodes: seq<Node>, id: NodeId): Option<NodeType>
    ensures id !in Ids(nodes) ==> KindOf(nodes, id).None?
  {
    if nodes == [] then None
    else
      assert forall k | 0 <= k < |nodes| - 1 :: nodes[1..][k] == nodes[k + 1];
      if nodes[0].id == id then ParseType(nodes[0].kind)
      else KindOf(nodes[1..], id)
  }

  function EdgeIds(edges: seq<Edge>): set<Identifier> {
    set i | 0 <= i < |edges| :: edges[i].id
  }

  /** What is wrong with edge `i`, given the nodes and the edges declared before it. */
  function EdgeDefect(d: Definition, i: nat): Option<Defect>
    requires i < |d.edges|
  {
    var e := d.edges[i];
    if !ValidIdentifier(e.id) then Some(InvalidEdgeId(i))
    else if e.id in EdgeIds(d.edges[..i]) then Some(DuplicateEdgeId(i))
    else if e.source !in Ids(d.nodes) || e.target !in Ids(d.nodes) then Some(UnknownEndpoint(i))
    else if ParseOutcome(e.outcome).None? || KindOf(d.nodes, e.source).None? then Some(InvalidOutcome(i))
    else if !Compatible(KindOf(d.nodes, e.source).value, ParseOutcome(e.outcome).value) then
      Some(IncompatibleOutcome(i))
    else None
  }

  predicate EdgesSound(d: Definition) {
    forall i | 0 <= i < |d.edges| :: EdgeDefect(d, i).None?
  }

  predicate WellFormed(d: Definition) {
    && |d.nodes| <= MAX_WORKFLOW_NODES
    && |d.edges| <= MAX_WORKFLOW_EDGES
    && NodesSound(d.nodes)
    && EdgesSound(d)
  }

  /** The outcomes an edge may carry when it leaves a node of this type, by their names. */
  predicate Permits(kind: string, outcome: string) {
    || (kind == "http" && outcome in {"always", "success", "failure"})
    || (kind == "condition" && outcome in {"always", "true", "false"})
    || (kind == "parallel" && outcome == "always")
  }

  ghost predicate EdgeFits(nodes: seq<Node>, e: Edge) {
    && ValidIdentifier(e.id)
    && (exists n | n in nodes :: n.id == e.source && Permits(n.kind, e.outcome))
    && (exists n | n in nodes :: n.id == e.target)
  }

  /** Well-formedness without defects: what a definition has to look like. */
  ghost predicate LooksRight(d: Definition) {
    && |d.nodes| <= 100 && |d.edges| <= 500
    && (forall n | n in d.nodes :: ValidIdentifier(n.id) && n.kind in {"http", "condition", "parallel"})
    && DistinctIds(d.nodes)
    && (forall i, j | 0 <= i < j < |d.edges| :: d.edges[i].id != d.edges[j].id)
    && (forall e | e in d.edges :: EdgeFits(d.nodes, e))
  }

  lemma {:induction false} KindOfNode(nodes: seq<Node>, n: Node)
    requires DistinctIds(nodes) && n in nodes
    ensures KindOf(nodes, n.id) == ParseType(n.kind)
  {
    if nodes[0] != n {
      assert forall k | 0 <= k < |nodes| - 1 :: nodes[1..][k] == nodes[k + 1];
      var i :| 0 <= i < |nodes| && nodes[i] == n;
      assert nodes[0].id != nodes[i].id;
      KindOfNode(nodes[1..], n);
    }
  }

  lemma NodesSoundExactly(nodes: seq<Node>)
    ensures NodesSound(nodes)
       <==> DistinctIds(nodes)
            && forall n | n in nodes :: ValidIdentifier(n.id) && n.kind in {"http", "condition", "parallel"}
  {
    hide ValidIdentifier;
    if NodesSound(nodes) {
      SoundNodesAreDistinct(nodes);
      forall n | n in nodes
        ensures ValidIdentifier(n.id) && n.kind in {"http", "condition", "parallel"}
      {
        var i :| 0 <= i < |nodes| && nodes[i] == n;
        assert NodeDefect(nodes, i).None?;
      }
    }
    if && DistinctIds(nodes)
       && (forall n | n in nodes :: ValidIdentifier(n.id) && n.kind in {"http", "condition", "parallel"}) {
      forall i | 0 <= i < |nodes|
        ensures NodeDefect(nodes, i).None?
      {
        assert nodes[i] in nodes;
      }
    }
  }

  lemma EdgeFitsExactly(d: Definition, e: Edge)
    requires NodesSound(d.nodes)
    ensures EdgeFits(d.nodes, e)
       <==> ValidIdentifier(e.id) && e.source in Ids(d.nodes) && e.target in Ids(d.nodes)
            && ParseOutcome(e.outcome).Some? && KindOf(d.nodes, e.source).Some?
            && Compatible(KindOf(d.nodes, e.source).value, ParseOutcome(e.outcome).value)
  {
    hide ValidIdentifier;
    SoundNodesAreDistinct(d.nodes);
    assert e.target in Ids(d.nodes) <==> exists n | n in d.nodes :: n.id == e.target;
    if e.source in Ids(d.nodes) {
      var n :| n in d.nodes && n.id == e.source;
      KindOfNode(d.nodes, n);
      assert forall m | m in d.nodes && m.id == e.source :: m == n;
    }
  }

  /** The validator's notion of a well-formed definition is exactly this one. */
  lemma WellFormedExactly(d: Definition)
    ensures WellFormed(d) <==> LooksRight(d)
  {
    hide ValidIdentifier, KindOf, Compatible, EdgeFits, NodesSound;
    NodesSoundExactly(d.nodes);
    if NodesSound(d.nodes) {
      forall e
        ensures EdgeFits(d.nodes, e)
           <==> ValidIdentifier(e.id) && e.source in Ids(d.nodes) && e.target in Ids(d.nodes)
                && ParseOutcome(e.outcome).Some? && KindOf(d.nodes, e.source).Some?
                && Compatible(KindOf(d.nodes, e.source).value, ParseOutcome(e.outcome).value)
      {
        EdgeFitsExactly(d, e);
      }
      if EdgesSound(d) {
        forall i, j | 0 <= i < j < |d.edges|
          ensures d.edges[i].id != d.edges[j].id
        {
          assert EdgeDefect(d, j).None? && d.edges[..j][i] == d.edges[i];
        }
        forall e | e in d.edges
          ensures EdgeFits(d.nodes, e)
        {
          var i :| 0 <= i < |d.edges| && d.edges[i] == e;
          assert EdgeDefect(d, i).None?;
        }
      }
    }
  }

  ghost predicate EarliestNodeDefect(nodes: seq<Node>, i: nat, defect: Option<Defect>) {
    && i < |nodes|
    && defect.Some? && NodeDefect(nodes, i) == defect
    && forall j: nat | j < i :: NodeDefect(nodes, j).None?
  }

  ghost predicate EarliestEdgeDefect(d: Definition, i: nat, defect: Option<Defect>) {
    && i < |d.edges|
    && defect.Some? && EdgeDefect(d, i) == defect
    && forall j: nat | j < i :: EdgeDefect(d, j).None?
  }

  /** The defect a scan in declaration order meets first: sizes, then nodes, then edges. */
  ghost predicate FirstDefect(d: Definition, defect: Defect) {
    if |d.nodes| > MAX_WORKFLOW_NODES then defect == TooManyNodes
    else if |d.edges| > MAX_WORKFLOW_EDGES then defect == TooManyEdges
    else if !NodesSound(d.nodes) then
      exists i: nat :: EarliestNodeDefect(d.nodes, i, Some(defect))
    else
      exists i: nat :: EarliestEdgeDefect(d, i, Some(defect))
  }

  // ------------------------------------------------------ graphs and cycles

  ghost predicate Closed(d: Definition) {
    forall e | e in d.edges :: e.source in Ids(d.nodes) && e.target in Ids(d.nodes)
  }

  ghost predicate Linked(edges: seq<Edge>, u: NodeId, v: NodeId) {
    exists e | e in edges :: e.source == u && e.target == v
  }

  ghost predicate Walk(edges: seq<Edge>, p: seq<NodeId>) {
    forall i | 0 <= i < |p| - 1 :: Linked(edges, p[i], p[i + 1])
  }

  /** A closed walk; a self-loop is a cycle of length one. */
  ghost predicate Cycle(edges: seq<Edge>, p: seq<NodeId>) {
    && p != []
    && Walk(edges, p)
    && Linked(edges, p[|p| - 1], p[0])
  }

  ghost predicate Acyclic(d: Definition) {
    forall p :: !Cycle(d.edges, p)
  }

  predicate Distinct<T(==)>(s: seq<T>) {
    forall i, j | 0 <= i < j < |s| :: s[i] != s[j]
  }

  function Elements<T>(s: seq<T>): set<T> {
    set x | x in s
  }

  ghost predicate TopologicalOrder(d: Definition, order: seq<NodeId>) {
    && Distinct(order)
    && Elements(order) == Ids(d.nodes)
    && forall e, j | e in d.edges && 0 <= j < |order| && order[j] == e.target :: e.source in order[..j]
  }

  ghost predicate IsRoot(d: Definition, n: NodeId) {
    n in Ids(d.nodes) && forall e | e in d.edges :: e.target != n
  }

  ghost predicate HasRoot(d: Definition) {
    exists n :: IsRoot(d, n)
  }

  lemma {:induction false} DistinctCardinality<T>(s: seq<T>)
    requires Distinct(s)
    ensures |Elements(s)| == |s|
  {
    if s != [] {
      var front, last := s[..|s| - 1], s[|s| - 1];
      DistinctCardinality(front);
      assert Elements(s) == Elements(front) + {last};
      assert last !in front;
    }
  }

  /** Positions along a cycle would have to increase forever. */
  lemma OrderedImpliesAcyclic(d: Definition, order: seq<NodeId>)
    requires Closed(d) && TopologicalOrder(d, order)
    ensures Acyclic(d)
  {
    forall p | Cycle(d.edges, p)
      ensures false
    {
      var start := PositionOf(d, order, p, 0);
      var end := AdvanceAlongWalk(d, order, p, |p| - 1);
    }
  }

  lemma PositionOf(d: Definition, order: seq<NodeId>, p: seq<NodeId>, i: nat) returns (j: nat)
    requires Closed(d) && TopologicalOrder(d, order) && Cycle(d.edges, p) && i < |p|
    ensures j < |order| && order[j] == p[i]
  {
    if i < |p| - 1 {
      assert Linked(d.edges, p[i], p[i + 1]);
    }
    assert p[i] in Ids(d.nodes);
    assert p[i] in Elements(order);
    j :| 0 <= j < |order| && order[j] == p[i];
  }

  lemma {:induction false} AdvanceAlongWalk(d: Definition, order: seq<NodeId>, p: seq<NodeId>, i: nat) returns (j: nat)
    requires Closed(d) && TopologicalOrder(d, order) && Cycle(d.edges, p) && i < |p|
    ensures j < |order| && order[j] == p[i]
    ensures forall s | 0 <= s < |order| && order[s] == p[0] :: s <= j
  {
    j := PositionOf(d, order, p, i);
    if i > 0 {
      var k := AdvanceAlongWalk(d, order, p, i - 1);
      assert Linked(d.edges, p[i - 1], p[(i - 1) + 1]);
      var e :| e in d.edges && e.source == p[i - 1] && e.target == p[i];
      assert e.source in order[..j];
      var q :| 0 <= q < j && order[q] == e.source;
      assert q == k;
    }
  }

  /** Some edge leads from `sources` into `n`. */
  ghost predicate FedFrom(edges: seq<Edge>, n: NodeId, sources: set<NodeId>) {
    exists e | e in edges :: e.target == n && e.source in sources
  }

  /** Every node of `stuck` has a predecessor in `stuck`. */
  ghost predicate Stuck(edges: seq<Edge>, stuck: set<NodeId>) {
    forall n | n in stuck :: FedFrom(edges, n, stuck)
  }

  /** Walking backwards inside a finite stuck set must revisit a node. */
  lemma {:induction false} StuckHasCycle(edges: seq<Edge>, stuck: set<NodeId>, p: seq<NodeId>)
    returns (cycle: seq<NodeId>)
    requires Stuck(edges, stuck)
    requires p != [] && Distinct(p) && Elements(p) <= stuck && Walk(edges, p)
    ensures Cycle(edges, cycle)
    decreases |stuck| - |p|
  {
    assert p[0] in Elements(p);
    assert FedFrom(edges, p[0], stuck);
    var e :| e in edges && e.target == p[0] && e.source in stuck;
    if e.source in p {
      var j :| 0 <= j < |p| && p[j] == e.source;
      cycle := p[..j + 1];
      assert forall i | 0 <= i < j :: Linked(edges, p[i], p[i + 1]);
      assert Linked(edges, cycle[|cycle| - 1], cycle[0]);
    } else {
      var q := [e.source] + p;
      ExtendBackwards(edges, stuck, e.source, p);
      cycle := StuckHasCycle(edges, stuck, q);
    }
  }

  lemma ExtendBackwards(edges: seq<Edge>, stuck: set<NodeId>, u: NodeId, p: seq<NodeId>)
    requires p != [] && Distinct(p) && Elements(p) <= stuck && Walk(edges, p)
    requires u in stuck && u !in p && Linked(edges, u, p[0])
    ensures Distinct([u] + p) && Elements([u] + p) <= stuck && Walk(edges, [u] + p)
    ensures |p| < |stuck|
  {
    var q := [u] + p;
    forall i | 0 <= i < |q| - 1
      ensures Linked(edges, q[i], q[i + 1])
    {
      if i > 0 {
        assert Linked(edges, p[i - 1], p[(i - 1) + 1]);
      }
    }
    assert Elements(q) == Elements(p) + {u};
    DistinctCardinality(q);
    SubsetSize(Elements(q), stuck);
  }

  // ----------------------------------------------------- counting in-edges

  /** How many edges into `n` come from nodes outside `done`. */
  function Unresolved(edges: seq<Edge>, n: NodeId, done: set<NodeId>): nat {
    if edges == [] then 0
    else
      var e := edges[|edges| - 1];
      Unresolved(edges[..|edges| - 1], n, done) + (if e.target == n && e.source !in done then 1 else 0)
  }

  /** The targets of the edges leaving `u`, in declaration order and with repetitions. */
  function TargetsOf(edges: seq<Edge>, u: NodeId): seq<NodeId> {
    if edges == [] then []
    else
      var e := edges[|edges| - 1];
      TargetsOf(edges[..|edges| - 1], u) + (if e.source == u then [e.target] else [])
  }

  lemma {:induction false} TargetsAreLinked(edges: seq<Edge>, u: NodeId, v: NodeId)
    ensures v in TargetsOf(edges, u) <==> Linked(edges, u, v)
  {
    if edges != [] {
      var front, e := edges[..|edges| - 1], edges[|edges| - 1];
      TargetsAreLinked(front, u, v);
      assert edges == front + [e];
      assert forall x :: x in edges <==> x in front || x == e;
    }
  }

  lemma {:induction false} UnresolvedIsZero(edges: seq<Edge>, n: NodeId, done: set<NodeId>)
    ensures Unresolved(edges, n, done) == 0 <==> forall e | e in edges && e.target == n :: e.source in done
  {
    if edges != [] {
      var front, e := edges[..|edges| - 1], edges[|edges| - 1];
      UnresolvedIsZero(front, n, done);
      assert edges == front + [e];
      assert forall x :: x in edges <==> x in front || x == e;
    }
  }

  /** Resolving `u` lowers the count of each target by the number of parallel edges to it. */
  lemma {:induction false} ResolvingLowersCounts(edges: seq<Edge>, n: NodeId, done: set<NodeId>, u: NodeId)
    requires u !in done
    ensures Unresolved(edges, n, done + {u}) == Unresolved(edges, n, done) - multiset(TargetsOf(edges, u))[n]
  {
    if edges != [] {
      ResolvingLowersCounts(edges[..|edges| - 1], n, done, u);
    }
  }

  // ------------------------------------------------------------- validation

  method CheckNodes(nodes: seq<Node>) returns (defect: Option<Defect>)
    ensures defect.None? <==> NodesSound(nodes)
    ensures defect.Some? ==> exists i: nat :: EarliestNodeDefect(nodes, i, defect)
  {
    var seen: set<NodeId> := {};
    for i := 0 to |nodes|
      invariant seen == Ids(nodes[..i])
      invariant forall j: nat | j < i :: NodeDefect(nodes, j).None?
    {
      var node := nodes[i];
      if !ValidIdentifier(node.id) {
        assert EarliestNodeDefect(nodes, i, Some(InvalidNodeId(i)));
        return Some(InvalidNodeId(i));
      }
      if ParseType(node.kind).None? {
        assert EarliestNodeDefect(nodes, i, Some(InvalidNodeType(i)));
        return Some(InvalidNodeType(i));
      }
      if node.id in seen {
        assert EarliestNodeDefect(nodes, i, Some(DuplicateNodeId(i)));
        return Some(DuplicateNodeId(i));
      }
      seen := seen + {node.id};
      assert nodes[..i + 1] == nodes[..i] + [node];
    }
    assert nodes[..|nodes|] == nodes;
    return None;
  }

  method CheckEdge(d: Definition, i: nat, seen: set<Identifier>) returns (defect: Option<Defect>)
    requires i < |d.edges| && seen == EdgeIds(d.edges[..i])
    ensures defect == EdgeDefect(d, i)
  {
    var e := d.edges[i];
    if !ValidIdentifier(e.id) {
      return Some(InvalidEdgeId(i));
    }
    if e.id in seen {
      return Some(DuplicateEdgeId(i));
    }
    if e.source !in Ids(d.nodes) || e.target !in Ids(d.nodes) {
      return Some(UnknownEndpoint(i));
    }
    var outcome, kind := ParseOutcome(e.outcome), KindOf(d.nodes, e.source);
    if outcome.None? || kind.None? {
      return Some(InvalidOutcome(i));
    }
    if !Compatible(kind.value, outcome.value) {
      return Some(IncompatibleOutcome(i));
    }
    return None;
  }

  /** `incoming` and `outgoing` are the in-degrees and target lists of the given edges. */
  ghost predicate Tallied(ids: set<NodeId>, edges: seq<Edge>, incoming: map<NodeId, nat>,
                          outgoing: map<NodeId, seq<NodeId>>)
  {
    && incoming.Keys == outgoing.Keys == ids
    && (forall n | n in ids :: incoming[n] == Unresolved(edges, n, {}))
    && (forall n | n in ids :: outgoing[n] == TargetsOf(edges, n))
  }

  lemma TallyOneMore(ids: set<NodeId>, edges: seq<Edge>, e: Edge, incoming: map<NodeId, nat>,
                     outgoing: map<NodeId, seq<NodeId>>)
    requires Tallied(ids, edges, incoming, outgoing) && e.source in ids && e.target in ids
    ensures Tallied(ids, edges + [e], incoming[e.target := incoming[e.target] + 1],
                    outgoing[e.source := outgoing[e.source] + [e.target]])
  {
    assert (edges + [e])[..|edges|] == edges;
  }

  lemma TallyKeys(ids: set<NodeId>, edges: seq<Edge>, incoming: map<NodeId, nat>, outgoing: map<NodeId, seq<NodeId>>)
    requires Tallied(ids, edges, incoming, outgoing)
    ensures incoming.Keys == outgoing.Keys == ids
  {
  }

  lemma NothingTallied(ids: set<NodeId>, incoming: map<NodeId, nat>, outgoing: map<NodeId, seq<NodeId>>)
    requires incoming == (map n | n in ids :: 0) && outgoing == map n | n in ids :: []
    ensures Tallied(ids, [], incoming, outgoing)
  {
  }

  lemma SoundEdgeIsClosed(d: Definition, i: nat)
    requires i < |d.edges|
    ensures EdgeDefect(d, i).None? ==> d.edges[i].source in Ids(d.nodes) && d.edges[i].target in Ids(d.nodes)
  {
  }

  lemma OneMoreEdge(edges: seq<Edge>, i: nat)
    requires i < |edges|
    ensures edges[..i + 1] == edges[..i] + [edges[i]]
    ensures EdgeIds(edges[..i + 1]) == EdgeIds(edges[..i]) + {edges[i].id}
  {
    forall x
      ensures x in EdgeIds(edges[..i + 1]) <==> x in EdgeIds(edges[..i]) + {edges[i].id}
    {
      assert forall j | 0 <= j < i :: edges[..i + 1][j] == edges[..i][j];
    }
  }

  /** Checks the edges and tallies, for every node, its in-degree and its targets. */
  method CheckEdges(d: Definition)
    returns (defect: Option<Defect>, incoming: map<NodeId, nat>, outgoing: map<NodeId, seq<NodeId>>)
    ensures defect.None? <==> EdgesSound(d)
    ensures defect.Some? ==> exists i: nat :: EarliestEdgeDefect(d, i, defect)
    ensures defect.None? ==> Tallied(Ids(d.nodes), d.edges, incoming, outgoing)
  {
    hide EdgeDefect, Tallied, Unresolved, TargetsOf;
    var edgeIds: set<Identifier> := {};
    var ids := Ids(d.nodes);
    incoming := map n | n in ids :: 0;
    outgoing := map n | n in ids :: [];
    NothingTallied(ids, incoming, outgoing);
    for i := 0 to |d.edges|
      invariant edgeIds == EdgeIds(d.edges[..i])
      invariant forall j: nat | j < i :: EdgeDefect(d, j).None?
      invariant Tallied(ids, d.edges[..i], incoming, outgoing)
    {
      var e := d.edges[i];
      defect := CheckEdge(d, i, edgeIds);
      SoundEdgeIsClosed(d, i);
      if defect.Some? {
        assert EarliestEdgeDefect(d, i, defect);
        return;
      }
      TallyKeys(ids, d.edges[..i], incoming, outgoing);
      TallyOneMore(ids, d.edges[..i], e, incoming, outgoing);
      OneMoreEdge(d.edges, i);
      edgeIds := edgeIds + {e.id};
      incoming := incoming[e.target := incoming[e.target] + 1];
      outgoing := outgoing[e.source := outgoing[e.source] + [e.target]];
    }
    assert d.edges[..|d.edges|] == d.edges;
    return None, incoming, outgoing;
  }

  /** Lowers one count per target; a node whose count reaches zero becomes ready. */
  method CountOff(ghost visited: seq<NodeId>, targets: seq<NodeId>, remaining0: map<NodeId, int>, ready0: seq<NodeId>)
    returns (remaining: map<NodeId, int>, ready: seq<NodeId>)
    requires forall n | n in targets :: n in remaining0
    requires forall n | n in remaining0 :: multiset(targets)[n] <= remaining0[n]
    requires Distinct(visited + ready0) && ReadyAreZero(visited + ready0, remaining0)
    ensures remaining.Keys == remaining0.Keys
    ensures forall n | n in remaining :: remaining[n] == remaining0[n] - multiset(targets)[n]
    ensures Distinct(visited + ready) && ReadyAreZero(visited + ready, remaining)
  {
    remaining, ready := remaining0, ready0;
    ghost var known := visited + ready0;
    for k := 0 to |targets|
      invariant remaining.Keys == remaining0.Keys
      invariant forall n | n in remaining :: remaining[n] == remaining0[n] - multiset(targets[..k])[n]
      invariant known == visited + ready
      invariant Distinct(known)
      invariant ReadyAreZero(known, remaining)
    {
      var target := targets[k];
      TakeOneMore(targets, k);
      remaining := remaining[target := remaining[target] - 1];
      if remaining[target] == 0 {
        ready, known := ready + [target], known + [target];
      }
    }
    assert targets[..|targets|] == targets;
  }

  lemma CountedOff(d: Definition, before: seq<NodeId>, current: NodeId)
    requires current !in before
    ensures forall n :: Unresolved(d.edges, n, Elements(before + [current]))
                     == Unresolved(d.edges, n, Elements(before)) - multiset(TargetsOf(d.edges, current))[n]
  {
    assert Elements(before + [current]) == Elements(before) + {current};
    forall n
      ensures Unresolved(d.edges, n, Elements(before) + {current})
           == Unresolved(d.edges, n, Elements(before)) - multiset(TargetsOf(d.edges, current))[n]
    {
      ResolvingLowersCounts(d.edges, n, Elements(before), current);
    }
  }

  lemma TakeOneMore<T>(s: seq<T>, k: nat)
    requires k < |s|
    ensures multiset(s[..k + 1]) == multiset(s[..k]) + multiset{s[k]}
    ensures multiset(s[..k])[s[k]] < multiset(s)[s[k]]
  {
    assert s[..k + 1] == s[..k] + [s[k]];
    assert s == s[..k] + [s[k]] + s[k + 1..];
  }

  /** Visited and ready nodes are those with no edge left to count. */
  ghost predicate ReadyAreZero(known: seq<NodeId>, remaining: map<NodeId, int>) {
    forall n :: n in known <==> n in remaining && remaining[n] == 0
  }

  /**
    Kahn's algorithm with a stack of ready nodes. `order` records the nodes in
    the order they are visited; a node that is never visited lies in a stuck set.
   */
  method VisitInDependencyOrder(d: Definition, incoming: map<NodeId, nat>, outgoing: map<NodeId, seq<NodeId>>,
                                roots: seq<NodeId>)
    returns (visited: nat, ghost order: seq<NodeId>)
    requires Closed(d)
    requires Tallied(Ids(d.nodes), d.edges, incoming, outgoing)
    requires Distinct(roots) && ReadyAreZero(roots, incoming)
    ensures visited == |order| <= |Ids(d.nodes)|
    ensures visited == |Ids(d.nodes)| <==> Acyclic(d)
    ensures visited == |Ids(d.nodes)| <==> TopologicalOrder(d, order)
  {
    var remaining: map<NodeId, int> := incoming;
    var ready := roots;
    visited := 0;
    order := [];
    hide Acyclic, Closed, Linked;
    assert order + ready == roots;
    assert Elements(order) == {};
    while ready != []
      invariant KahnInvariant(d, order, ready, remaining)
      invariant visited == |order|
      decreases |Ids(d.nodes)| - |order|
    {
      var current := ready[|ready| - 1];
      assert ready == ready[..|ready| - 1] + [current];
      ready := ready[..|ready| - 1];
      CurrentIsFresh(d, order, ready, remaining, current);
      TargetsAreCounted(d, Elements(order), current);
      ghost var before, counts := order, remaining;
      visited, order := visited + 1, order + [current];
      remaining, ready := CountOff(order, outgoing[current], remaining, ready);
      VisitKeepsInvariant(d, before, current, ready, counts, remaining);
    }
    VisitedAllOrStuck(d, order, remaining);
    if visited == |Ids(d.nodes)| {
      OrderedImpliesAcyclic(d, order);
    } else {
      StuckIsCyclic(d, Ids(d.nodes) - Elements(order));
    }
  }

  lemma VisitKeepsInvariant(d: Definition, before: seq<NodeId>, current: NodeId, ready: seq<NodeId>,
                            counts: map<NodeId, int>, remaining: map<NodeId, int>)
    requires SourcesFirst(d, before) && current !in before
    requires forall e | e in d.edges && e.target == current :: e.source in before
    requires counts.Keys == remaining.Keys == Ids(d.nodes)
    requires forall n | n in counts :: counts[n] == Unresolved(d.edges, n, Elements(before))
    requires forall n | n in counts :: remaining[n] == counts[n] - multiset(TargetsOf(d.edges, current))[n]
    requires Distinct(before + [current] + ready) && ReadyAreZero(before + [current] + ready, remaining)
    ensures KahnInvariant(d, before + [current], ready, remaining)
  {
    CountedOff(d, before, current);
    OrderedSoFar(d, before, current);
    BoundedOrder(d, before + [current], ready);
  }

  lemma VisitedAllOrStuck(d: Definition, order: seq<NodeId>, remaining: map<NodeId, int>)
    requires Closed(d) && KahnInvariant(d, order, [], remaining)
    ensures |order| == |Ids(d.nodes)| <==> TopologicalOrder(d, order)
    ensures |order| < |Ids(d.nodes)| ==>
              Ids(d.nodes) - Elements(order) != {} && Stuck(d.edges, Ids(d.nodes) - Elements(order))
  {
    assert order + [] == order;
    DistinctCardinality(order);
    forall n | n in Ids(d.nodes) - Elements(order)
      ensures FedFrom(d.edges, n, Ids(d.nodes) - Elements(order))
    {
      UnresolvedIsZero(d.edges, n, Elements(order));
      assert n !in order;
      var e :| e in d.edges && e.target == n && e.source !in Elements(order);
    }
    if |order| == |Ids(d.nodes)| {
      SubsetOfSameSize(Elements(order), Ids(d.nodes));
    } else {
      SmallerLeavesSome(Elements(order), Ids(d.nodes));
    }
  }

  ghost predicate KahnInvariant(d: Definition, order: seq<NodeId>, ready: seq<NodeId>, remaining: map<NodeId, int>) {
    && remaining.Keys == Ids(d.nodes)
    && (forall n | n in Ids(d.nodes) :: remaining[n] == Unresolved(d.edges, n, Elements(order)))
    && Distinct(order + ready)
    && ReadyAreZero(order + ready, remaining)
    && |order| <= |Ids(d.nodes)|
    && SourcesFirst(d, order)
  }

  ghost predicate SourcesFirst(d: Definition, order: seq<NodeId>) {
    forall e, j | e in d.edges && 0 <= j < |order| && order[j] == e.target :: e.source in order[..j]
  }

  lemma CurrentIsFresh(d: Definition, order: seq<NodeId>, ready: seq<NodeId>, remaining: map<NodeId, int>,
                       current: NodeId)
    requires KahnInvariant(d, order, ready + [current], remaining)
    ensures current in Ids(d.nodes) && current !in order
    ensures forall e | e in d.edges && e.target == current :: e.source in order
    ensures order + (ready + [current]) == order + ready + [current]
    ensures Distinct((order + [current]) + ready)
    ensures forall x :: x in (order + [current]) + ready <==> x in order + (ready + [current])
  {
    var all := order + (ready + [current]);
    assert all[|all| - 1] == current;
    UnresolvedIsZero(d.edges, current, Elements(order));
    assert forall x :: x in all <==> x in order || x in ready || x == current;
    assert forall i | 0 <= i < |order| :: all[i] == order[i];
    var moved := (order + [current]) + ready;
    assert forall i | |order| < i < |moved| :: moved[i] == all[i - 1];
  }

  lemma TargetsAreCounted(d: Definition, done: set<NodeId>, current: NodeId)
    requires Closed(d) && current !in done
    ensures forall n | n in TargetsOf(d.edges, current) :: n in Ids(d.nodes)
    ensures forall n :: multiset(TargetsOf(d.edges, current))[n] <= Unresolved(d.edges, n, done)
  {
    forall n
      ensures n in TargetsOf(d.edges, current) ==> n in Ids(d.nodes)
      ensures multiset(TargetsOf(d.edges, current))[n] <= Unresolved(d.edges, n, done)
    {
      TargetsAreLinked(d.edges, current, n);
      ResolvingLowersCounts(d.edges, n, done, current);
    }
  }

  lemma OrderedSoFar(d: Definition, order: seq<NodeId>, current: NodeId)
    requires SourcesFirst(d, order)
    requires forall e | e in d.edges && e.target == current :: e.source in order
    ensures SourcesFirst(d, order + [current])
  {
    var longer := order + [current];
    forall e, j | e in d.edges && 0 <= j < |longer| && longer[j] == e.target
      ensures e.source in longer[..j]
    {
      if j < |order| {
        assert longer[..j] == order[..j];
      } else {
        assert longer[..j] == order;
      }
    }
  }

  lemma BoundedOrder(d: Definition, order: seq<NodeId>, ready: seq<NodeId>)
    requires Distinct(order + ready) && Elements(order + ready) <= Ids(d.nodes)
    ensures |order| <= |Ids(d.nodes)|
  {
    DistinctCardinality(order + ready);
    SubsetSize(Elements(order + ready), Ids(d.nodes));
  }

  lemma NothingLeft<T>(a: set<T>, b: set<T>)
    requires a <= b && b - a == {}
    ensures a == b
  {
    forall x | x in b
      ensures x in a
    {
      assert x !in b - a;
    }
  }

  method FindRoots(nodes: seq<Node>, incoming: map<NodeId, nat>) returns (roots: seq<NodeId>)
    requires incoming.Keys == Ids(nodes) && DistinctIds(nodes)
    ensures Distinct(roots) && ReadyAreZero(roots, incoming)
  {
    roots := [];
    for i := 0 to |nodes|
      invariant Distinct(roots)
      invariant forall r | r in roots :: exists j | 0 <= j < i :: nodes[j].id == r && incoming[r] == 0
      invariant forall j | 0 <= j < i && incoming[nodes[j].id] == 0 :: nodes[j].id in roots
    {
      if incoming[nodes[i].id] == 0 {
        roots := roots + [nodes[i].id];
      }
    }
  }

  lemma StuckIsCyclic(d: Definition, stuck: set<NodeId>)
    requires stuck != {} && Stuck(d.edges, stuck)
    ensures !Acyclic(d)
  {
    var n :| n in stuck;
    var cycle := StuckHasCycle(d.edges, stuck, [n]);
  }

  lemma RootlessIsCyclic(d: Definition)
    requires Closed(d) && d.nodes != [] && !HasRoot(d)
    ensures !Acyclic(d)
  {
    forall n | n in Ids(d.nodes)
      ensures FedFrom(d.edges, n, Ids(d.nodes))
    {
      assert !IsRoot(d, n);
    }
    assert d.nodes[0].id in Ids(d.nodes);
    StuckIsCyclic(d, Ids(d.nodes));
  }

  /** The second half of the validator: a root must exist and Kahn's algorithm must visit every node. */
  method CheckAcyclic(d: Definition, incoming: map<NodeId, nat>, outgoing: map<NodeId, seq<NodeId>>)
    returns (verdict: Verdict)
    requires DistinctIds(d.nodes) && Closed(d)
    requires Tallied(Ids(d.nodes), d.edges, incoming, outgoing)
    ensures verdict.Accepted? <==> Acyclic(d)
    ensures verdict.Accepted? ==> exists order :: TopologicalOrder(d, order)
    ensures verdict == Rejected(NoRoot) <==> d.nodes != [] && !HasRoot(d)
    ensures verdict == Rejected(NotAcyclic) <==> HasRoot(d) && !Acyclic(d)
    ensures verdict.Rejected? ==> verdict.defect in {NoRoot, NotAcyclic}
  {
    var roots := FindRoots(d.nodes, incoming);
    RootsHaveNoInEdges(d, incoming, roots);
    if d.nodes == [] {
      assert TopologicalOrder(d, []);
      OrderedImpliesAcyclic(d, []);
      verdict := Accepted;
    } else if roots == [] {
      RootlessIsCyclic(d);
      verdict := Rejected(NoRoot);
    } else {
      var visited, order := VisitInDependencyOrder(d, incoming, outgoing, roots);
      NodeCount(d.nodes);
      verdict := if visited != |d.nodes| then Rejected(NotAcyclic) else Accepted;
    }
  }

  /**
    The validator accepts exactly the well-formed acyclic definitions and names
    the first defect of every other one.
   */
  method ValidateWorkflowGraph(d: Definition) returns (verdict: Verdict)
    ensures verdict.Accepted? <==> WellFormed(d) && Acyclic(d)
    ensures verdict.Accepted? ==> exists order :: TopologicalOrder(d, order)
    ensures !WellFormed(d) ==> verdict.Rejected? && FirstDefect(d, verdict.defect)
    ensures verdict == Rejected(NoRoot) <==> WellFormed(d) && d.nodes != [] && !HasRoot(d)
    ensures verdict == Rejected(NotAcyclic) <==> WellFormed(d) && HasRoot(d) && !Acyclic(d)
  {
    if |d.nodes| > MAX_WORKFLOW_NODES {
      return Rejected(TooManyNodes);
    }
    if |d.edges| > MAX_WORKFLOW_EDGES {
      return Rejected(TooManyEdges);
    }
    var nodeDefect := CheckNodes(d.nodes);
    if nodeDefect.Some? {
      return Rejected(nodeDefect.value);
    }
    var edgeDefect, incoming, outgoing := CheckEdges(d);
    if edgeDefect.Some? {
      return Rejected(edgeDefect.value);
    }
    SoundNodesAreDistinct(d.nodes);
    SoundEdgesAreClosed(d);
    verdict := CheckAcyclic(d, incoming, outgoing);
  }

  lemma SoundEdgesAreClosed(d: Definition)
    requires EdgesSound(d)
    ensures Closed(d)
  {
    forall e | e in d.edges
      ensures e.source in Ids(d.nodes) && e.target in Ids(d.nodes)
    {
      var i :| 0 <= i < |d.edges| && d.edges[i] == e;
      assert EdgeDefect(d, i).None?;
    }
  }

  lemma RootsHaveNoInEdges(d: Definition, incoming: map<NodeId, nat>, roots: seq<NodeId>)
    requires incoming.Keys == Ids(d.nodes)
    requires forall n | n in Ids(d.nodes) :: incoming[n] == Unresolved(d.edges, n, {})
    requires ReadyAreZero(roots, incoming)
    ensures HasRoot(d) <==> roots != []
  {
    forall n
      ensures n in roots <==> IsRoot(d, n)
    {
      UnresolvedIsZero(d.edges, n, {});
    }
    if roots != [] {
      assert IsRoot(d, roots[0]);
    }
  }

  lemma {:induction false} NodeCount(nodes: seq<Node>)
    requires DistinctIds(nodes)
    ensures |Ids(nodes)| == |nodes|
  {
    if nodes != [] {
      var front, last := nodes[..|nodes| - 1], nodes[|nodes| - 1];
      NodeCount(front);
      assert nodes == front + [last];
      assert Ids(nodes) == Ids(front) + {last.id};
    }
  }

  /** Acyclicity and the existence of a topological order are the same thing. */
  lemma AcyclicIffOrderable(d: Definition)
    requires Closed(d)
    ensures Acyclic(d) <==> exists order :: TopologicalOrder(d, order)
  {
    if Acyclic(d) {
      var order := OrderAll(d, []);
    }
    forall order | TopologicalOrder(d, order)
      ensures Acyclic(d)
    {
      OrderedImpliesAcyclic(d, order);
    }
  }

  lemma {:induction false} OrderAll(d: Definition, prefix: seq<NodeId>) returns (order: seq<NodeId>)
    requires Closed(d) && Acyclic(d)
    requires Distinct(prefix) && Elements(prefix) <= Ids(d.nodes) && SourcesFirst(d, prefix)
    ensures TopologicalOrder(d, order)
    decreases |Ids(d.nodes)| - |prefix|
  {
    hide Acyclic, Stuck, Linked;
    if Ids(d.nodes) - Elements(prefix) == {} {
      NothingLeft(Elements(prefix), Ids(d.nodes));
      order := prefix;
    } else {
      var n := UnfedNode(d, Ids(d.nodes) - Elements(prefix));
      ExtendOrder(d, prefix, n);
      order := OrderAll(d, prefix + [n]);
    }
  }

  /** In an acyclic graph a nonempty set contains a node without predecessors in the set. */
  lemma UnfedNode(d: Definition, rest: set<NodeId>) returns (n: NodeId)
    requires Acyclic(d) && rest != {}
    ensures n in rest && !FedFrom(d.edges, n, rest)
  {
    hide Acyclic;
    if Stuck(d.edges, rest) {
      StuckIsCyclic(d, rest);
      assert false;
    }
    n :| n in rest && !FedFrom(d.edges, n, rest);
  }

  lemma ExtendOrder(d: Definition, prefix: seq<NodeId>, n: NodeId)
    requires Closed(d)
    requires Distinct(prefix) && Elements(prefix) <= Ids(d.nodes) && SourcesFirst(d, prefix)
    requires n in Ids(d.nodes) - Elements(prefix) && !FedFrom(d.edges, n, Ids(d.nodes) - Elements(prefix))
    ensures Distinct(prefix + [n]) && Elements(prefix + [n]) <= Ids(d.nodes) && SourcesFirst(d, prefix + [n])
    ensures |prefix| < |Ids(d.nodes)|
  {
    assert n !in prefix;
    forall e | e in d.edges && e.target == n
      ensures e.source in prefix
    {
      assert e.source in Elements(prefix);
    }
    OrderedSoFar(d, prefix, n);
    assert Elements(prefix + [n]) == Elements(prefix) + {n};
    DistinctCardinality(prefix + [n]);
    SubsetSize(Elements(prefix + [n]), Ids(d.nodes));
  }
}
