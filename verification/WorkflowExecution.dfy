/** Running a workflow from its definition: validation, the initial context, and the one possible record. */
module WorkflowExecution {
  import opened Wrappers
  import opened WorkflowGraph
  import opened WorkflowScheduler
  import opened WorkflowMeaning

  datatype Record =
    | InvalidGraph(defect: Defect)
    | EmptyWorkflow
    | Stuck
    | Finished(failed: bool, results: seq<(NodeId, Status)>, context: Context)

  /** The record a completed schedule leads to. */
  ghost predicate RecordOf(d: Definition, oracle: Oracle, ctx: Context, ex: Executions, rounds: Rounds, record: Record)
    requires Schedule(d, oracle, ctx, ex, rounds)
  {
    match record
    case Stuck => SkippedLast(ex, rounds)
    case Finished(failed, results, context) =>
      && !SkippedLast(ex, rounds)
      && (failed <==> exists n | n in ex :: StatusOf(ex[n]) == FAILED)
      && results == Results(d.nodes, ex)
      && forall r: nat | AllRanBefore(ex, rounds, r) :: context == ContextBefore(d, ex, rounds, ctx, r)
    case _ => false
  }

  /** Why the validator refuses the definition: the first defect, a missing root, or a cycle. */
  ghost predicate Refusal(d: Definition, defect: Defect) {
    if !WellFormed(d) then FirstDefect(d, defect) else defect == if HasRoot(d) then NotAcyclic else NoRoot
  }

  /** What executing a workflow may record: it does not mention waves or their size. */
  ghost predicate Records(d: Definition, oracle: Oracle, variables: Context, given: Context, record: Record) {
    if !WellFormed(d) || !Acyclic(d) then record.InvalidGraph? && Refusal(d, record.defect)
    else if d.nodes == [] then record == EmptyWorkflow
    else
      exists ex, rounds ::
        && Schedule(d, oracle, variables + given, ex, rounds)
        && RecordOf(d, oracle, variables + given, ex, rounds, record)
  }

  method Execute(d: Definition, oracle: Oracle, variables: Context, given: Context, maxConcurrency: int)
    returns (record: Record)
    ensures Records(d, oracle, variables, given, record)
  {
    hide Schedule, SkippedLast, WellFormed, Acyclic, AllRanBefore;
    var verdict := ValidateWorkflowGraph(d);
    if verdict.Rejected? {
      EmptyIsAcyclic(d);
      return InvalidGraph(verdict.defect);
    }
    if d.nodes == [] {
      return EmptyWorkflow;
    }
    var context := variables + given;
    var outcome, ex, rounds := RunGraph(d, oracle, maxConcurrency, context);
    record := if outcome.NoProgress? then Stuck else Finished(outcome.failed, outcome.results, outcome.context);
    assert RecordOf(d, oracle, context, ex, rounds, record);
  }

  lemma SomeRoundIsLast(ex: Executions, rounds: Rounds) returns (r: nat)
    requires ex.Keys == rounds.Keys
    ensures AllRanBefore(ex, rounds, r)
  {
    r := HighestRank(rounds);
  }

  lemma EmptyIsAcyclic(d: Definition)
    ensures WellFormed(d) && d.nodes == [] ==> Acyclic(d)
  {
    if WellFormed(d) && d.nodes == [] {
      SoundEdgesAreClosed(d);
      OrderedImpliesAcyclic(d, []);
    }
  }

  lemma FirstDefectIsUnique(d: Definition, one: Defect, other: Defect)
    requires FirstDefect(d, one) && FirstDefect(d, other)
    ensures one == other
  {
    hide NodeDefect, EdgeDefect;
    if |d.nodes| <= MAX_WORKFLOW_NODES && |d.edges| <= MAX_WORKFLOW_EDGES {
      if NodesSound(d.nodes) {
        var i: nat :| EarliestEdgeDefect(d, i, Some(one));
        var j: nat :| EarliestEdgeDefect(d, j, Some(other));
        assert i == j;
      } else {
        var i: nat :| EarliestNodeDefect(d.nodes, i, Some(one));
        var j: nat :| EarliestNodeDefect(d.nodes, j, Some(other));
        assert i == j;
      }
    }
  }

  /** A definition has one record, valid or not, however its nodes are scanned. */
  lemma RecordIsUnique(d: Definition, oracle: Oracle, variables: Context, given: Context, one: Record, other: Record)
    requires Records(d, oracle, variables, given, one) && Records(d, oracle, variables, given, other)
    ensures one == other
  {
    hide FirstDefect, RecordOf, WellFormed, Acyclic;
    if !WellFormed(d) {
      FirstDefectIsUnique(d, one.defect, other.defect);
    } else if Acyclic(d) && d.nodes != [] {
      ValidRecordIsUnique(d, oracle, variables, given, one, other);
    }
  }

  lemma ValidRecordIsUnique(d: Definition, oracle: Oracle, variables: Context, given: Context, one: Record,
                            other: Record)
    requires WellFormed(d) && Acyclic(d) && d.nodes != []
    requires Records(d, oracle, variables, given, one) && Records(d, oracle, variables, given, other)
    ensures one == other
  {
    SoundEdgesAreClosed(d);
    hide Schedule, SkippedLast, WellFormed, Acyclic, AllRanBefore, Closed;
    var ctx := variables + given;
    var ex1, rounds1 :| Schedule(d, oracle, ctx, ex1, rounds1) && RecordOf(d, oracle, ctx, ex1, rounds1, one);
    var ex2, rounds2 :| Schedule(d, oracle, ctx, ex2, rounds2) && RecordOf(d, oracle, ctx, ex2, rounds2, other);
    ScheduleIsUnique(d, oracle, ctx, ex1, rounds1, ex2, rounds2);
    ScheduleKeys(d, oracle, ctx, ex1, rounds1);
    var r := SomeRoundIsLast(ex1, rounds1);
  }

  /** The smallest raising workflow: accepted by the validator, and stuck whenever the condition comes out false. */
  lemma UntakenBranchIsStuck(oracle: Oracle, variables: Context, given: Context, record: Record)
    requires oracle(BranchToNothing().nodes[0], variables + given).branch == Some(false)
    ensures Records(BranchToNothing(), oracle, variables, given, record) <==> record == Stuck
  {
    hide Schedule, SkippedLast, WellFormed, Acyclic;
    var d := BranchToNothing();
    BranchIsValid();
    var ex, rounds := BranchSchedule(oracle, variables + given);
    UntakenBranchRaises(oracle, variables + given, ex, rounds);
    assert RecordOf(d, oracle, variables + given, ex, rounds, Stuck);
    assert Records(d, oracle, variables, given, Stuck);
    if Records(d, oracle, variables, given, record) {
      RecordIsUnique(d, oracle, variables, given, record, Stuck);
    }
  }
}
