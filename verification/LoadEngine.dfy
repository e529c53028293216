/**
  The load test engine as a machine of interleaved atomic steps: workers that
  share a counter, the metrics, a response buffer and a sorted store, and the
  service that joins them, flushes and closes the run. The counter, the metrics
  and the buffer are each guarded by a lock, so a visit to one of them is one step.
 */
module LoadEngine {
  import opened Wrappers
  import opened LoadMetrics
  import opened LoadResponses

  datatype Mode = Count | Duration
  datatype Test = Test(mode: Mode, requestCount: nat, targets: nat, concurrency: nat, maxWorkers: nat)

  predicate ValidTest(t: Test) {
    1 <= t.requestCount <= 10_000 && 1 <= t.targets <= 20 && 1 <= t.concurrency <= 100 && 1 <= t.maxWorkers <= 100
  }

  function WorkerCount(t: Test): nat {
    var n := Min(t.concurrency, t.maxWorkers);
    if t.mode.Count? then Min(n, t.requestCount) else n
  }

  datatype Pc =
    | Looping | Claiming | Requesting(index: nat) | Responding(response: Response)
    | Reporting | Publishing(total: nat) | Rechecking | Waiting | Returned | Raised

  datatype Stage = Opening | Working | Flushing(raised: bool) | Closing(raised: bool) | Finished | Escaped

  /**
    `counted` lists the indices in the order their requests entered the metrics;
    `dropped` and `lost` are the indices and sequence numbers that errors took;
    `latest` is the last total the service published.
   */
  datatype System = System(pcs: seq<Pc>, next: nat, counted: seq<nat>, dropped: multiset<nat>, tally: Tally,
                           buffer: Buffered, lost: multiset<nat>, cancelled: bool, latest: nat, run: Run, stage: Stage)

  function Start(t: Test): System {
    System([], 0, [], multiset{}, Tallied(t.targets, []), Buffered([], []), multiset{}, false, 0, Run(RUNNING, 0),
           Opening)
  }

  /** What the world decides in a worker's step; `storeFails` and `updateFails` are errors of the repository. */
  datatype World = World(expired: bool, raises: bool, o: Observation, draw: nat, targetDraw: nat,
                         storeFails: bool, updateFails: bool, due: bool, delayed: bool)

  /** `Recover` is the start-up sweep over runs that still read RUNNING. */
  datatype Event =
    | Open(readFails: bool, raises: bool) | Work(w: nat, world: World) | Cancel | Join
    | Flush(storeFails: bool) | Close(updateFails: bool) | Recover

  predicate Halted(pc: Pc) {
    pc.Returned? || pc.Raised?
  }

  predicate AllHalted(s: System) {
    forall pc | pc in s.pcs :: Halted(pc)
  }

  function Moved(s: System, w: nat, pc: Pc): System
    requires w < |s.pcs|
  {
    s.(pcs := s.pcs[w := pc])
  }

  function AfterReport(t: Test): Pc {
    if t.mode.Count? then Rechecking else Waiting
  }

  function Counted(t: Test, s: System, w: nat, index: nat, world: World): System
    requires ValidTest(t) && w < |s.pcs| && |s.tally.targets| == t.targets
  {
    var target := index % t.targets;
    var tally := Recorded(s.tally, target, world.o, world.draw, world.targetDraw);
    Moved(s, w, Responding(Response(tally.all.total, target, world.o))).(counted := s.counted + [index], tally := tally)
  }

  function Responded(s: System, w: nat, r: Response, storeFails: bool): System
    requires w < |s.pcs|
  {
    if storeFails && |s.buffer.pending| + 1 >= BATCH then
      Moved(s, w, Raised).(buffer := s.buffer.(pending := []), lost := s.lost + Numbers(s.buffer.pending + [r]))
    else Moved(s, w, Reporting).(buffer := Accepted(s.buffer, r))
  }

  /** The callback that publishes a snapshot. */
  function Published(t: Test, s: System, w: nat, total: nat, updateFails: bool): System
    requires w < |s.pcs|
  {
    if s.cancelled || total <= s.latest then Moved(s, w, AfterReport(t))
    else if updateFails then Moved(s, w, Raised)
    else Moved(s, w, AfterReport(t)).(run := UpdatedRun(s.run, RUNNING, total), latest := total)
  }

  /** One step of a worker. */
  function WorkStep(t: Test, s: System, w: nat, world: World): System
    requires ValidTest(t) && w < |s.pcs| && |s.tally.targets| == t.targets
  {
    match s.pcs[w]
    case Looping => Moved(s, w, if s.cancelled then Returned else Claiming)
    case Claiming =>
      if t.mode.Count? && s.next >= t.requestCount then Moved(s, w, Returned)
      else if t.mode.Duration? && world.expired then Moved(s, w, Returned)
      else Moved(s, w, Requesting(s.next)).(next := s.next + 1)
    case Requesting(index) =>
      if world.raises then Moved(s, w, Raised).(dropped := s.dropped + multiset{index})
      else Counted(t, s, w, index, world)
    case Responding(r) => Responded(s, w, r, world.storeFails)
    case Reporting => Moved(s, w, if world.due then Publishing(s.tally.all.total) else AfterReport(t))
    case Publishing(total) => Published(t, s, w, total, world.updateFails)
    case Rechecking => Moved(s, w, if s.next >= t.requestCount then Returned else Waiting)
    case Waiting => Moved(s, w, if world.delayed && s.cancelled then Returned else Looping)
    case Returned => s
    case Raised => s
  }

  /** Reading the run comes before the service's error handling; preparing the requests inside it. */
  function OpenStep(t: Test, s: System, readFails: bool, raises: bool): System {
    if readFails then s.(stage := Escaped)
    else if raises then s.(stage := Flushing(true))
    else s.(stage := Working, pcs := seq(WorkerCount(t), i => Looping))
  }

  /** An error while flushing enters the handler, or leaves it if it is raised there. */
  function FlushStep(s: System, storeFails: bool): System
    requires s.stage.Flushing?
  {
    if s.buffer.pending == [] then s.(stage := Closing(s.stage.raised))
    else if !storeFails then s.(buffer := Drained(s.buffer), stage := Closing(s.stage.raised))
    else s.(buffer := s.buffer.(pending := []), lost := s.lost + Numbers(s.buffer.pending),
            stage := if s.stage.raised then Escaped else Flushing(true))
  }

  /** The last write of the run, with the same two ways for an error to go. */
  function CloseStep(s: System, updateFails: bool): System
    requires s.stage.Closing?
  {
    if updateFails then s.(stage := if s.stage.raised then Escaped else Flushing(true))
    else s.(stage := Finished,
            run := if s.stage.raised then UpdatedRun(s.run, FAILED, s.latest)
                   else UpdatedRun(s.run, if s.cancelled then FAILED else SUCCEEDED, s.tally.all.total))
  }

  function Step(t: Test, s: System, e: Event): System
    requires ValidTest(t) && |s.tally.targets| == t.targets
  {
    match e
    case Open(readFails, raises) => if s.stage.Opening? then OpenStep(t, s, readFails, raises) else s
    case Work(w, world) => if w < |s.pcs| && s.stage.Working? then WorkStep(t, s, w, world) else s
    case Cancel => s.(cancelled := true)
    case Join => if s.stage.Working? && AllHalted(s) then s.(stage := Flushing(Raised in s.pcs)) else s
    case Flush(storeFails) => if s.stage.Flushing? then FlushStep(s, storeFails) else s
    case Close(updateFails) => if s.stage.Closing? then CloseStep(s, updateFails) else s
    case Recover => s.(run := UpdatedRun(s.run, FAILED, s.run.reported))
  }

  // ------------------------------------------------------------------ conserved quantities

  /** The index a worker has taken and not yet counted. */
  function ClaimOf(pc: Pc): Option<nat> {
    if pc.Requesting? then Some(pc.index) else None
  }

  /** The sequence number a worker has been given and not yet handed over. */
  function NumberOf(pc: Pc): Option<nat> {
    if pc.Responding? then Some(pc.response.sequence) else None
  }

  /** How many workers hold k. */
  function Holders(of: Pc -> Option<nat>, pcs: seq<Pc>, k: nat): nat {
    if pcs == [] then 0
    else Holders(of, pcs[..|pcs| - 1], k) + (if of(pcs[|pcs| - 1]) == Some(k) then 1 else 0)
  }

  lemma {:induction false} HoldersAfter(of: Pc -> Option<nat>, pcs: seq<Pc>, w: nat, pc: Pc, k: nat)
    requires w < |pcs|
    ensures Holders(of, pcs[w := pc], k)
         == Holders(of, pcs, k) - (if of(pcs[w]) == Some(k) then 1 else 0) + (if of(pc) == Some(k) then 1 else 0)
  {
    var last := |pcs| - 1;
    if w == last {
      assert pcs[w := pc][..last] == pcs[..last];
    } else {
      HoldersAfter(of, pcs[..last], w, pc, k);
      assert pcs[w := pc][..last] == pcs[..last][w := pc];
    }
  }

  lemma {:induction false} NoHolders(of: Pc -> Option<nat>, pcs: seq<Pc>, k: nat)
    requires forall pc | pc in pcs :: of(pc).None?
    ensures Holders(of, pcs, k) == 0
  {
    if pcs != [] { NoHolders(of, pcs[..|pcs| - 1], k); }
  }

  /** How many of the indices go to this target. */
  function Hits(indices: seq<nat>, target: nat, targets: nat): nat
    requires targets > 0
  {
    if indices == [] then 0
    else Hits(indices[..|indices| - 1], target, targets) + (if indices[|indices| - 1] % targets == target then 1 else 0)
  }

  predicate ClaimAt(s: System, k: nat) {
    multiset(s.counted)[k] + Holders(ClaimOf, s.pcs, k) + s.dropped[k] == if k < s.next then 1 else 0
  }

  /** Every index handed out is being requested, was counted, or was dropped by an error. */
  ghost predicate ClaimsOk(s: System) {
    forall k: nat :: ClaimAt(s, k)
  }

  predicate NumberAt(s: System, k: nat) {
    Numbers(s.buffer.stored)[k] + Numbers(s.buffer.pending)[k] + Holders(NumberOf, s.pcs, k) + s.lost[k]
    == if 1 <= k <= |s.counted| then 1 else 0
  }

  /** Every sequence number given is at exactly one place. */
  ghost predicate NumbersOk(s: System) {
    InOrder(s.buffer.stored) && forall k: nat :: NumberAt(s, k)
  }

  ghost predicate TallyOk(t: Test, s: System)
    requires ValidTest(t)
  {
    && |s.tally.targets| == t.targets && s.tally.all.total == |s.counted| && Balanced(s.tally)
    && forall i: nat | i < t.targets :: s.tally.targets[i].total == Hits(s.counted, i, t.targets)
  }

  /** The response with number k is for the k-th index counted, and names that index's target. */
  predicate Genuine(t: Test, counted: seq<nat>, r: Response)
    requires ValidTest(t)
  {
    1 <= r.sequence <= |counted| && r.target == counted[r.sequence - 1] % t.targets
  }

  ghost predicate ResponsesOk(t: Test, s: System)
    requires ValidTest(t)
  {
    && (forall r | r in s.buffer.stored || r in s.buffer.pending :: Genuine(t, s.counted, r))
    && forall pc | pc in s.pcs && pc.Responding? :: Genuine(t, s.counted, pc.response)
  }

  /** A worker raised, the service is in its error handler, or the run has failed. */
  predicate InTrouble(s: System) {
    || Raised in s.pcs || s.stage.Escaped? || s.run.status == FAILED
    || ((s.stage.Flushing? || s.stage.Closing?) && s.stage.raised)
  }

  ghost predicate WorkersOk(t: Test, s: System) {
    && (|s.pcs| == WorkerCount(t) || (s.pcs == [] && (s.stage.Opening? || InTrouble(s))))
    && (t.mode.Count? ==> s.next <= t.requestCount)
    && (t.mode.Count? && !s.cancelled && Returned in s.pcs ==> s.next == t.requestCount)
    && (s.lost != multiset{} || s.dropped != multiset{} ==> InTrouble(s))
    && s.latest <= s.tally.all.total && s.run.reported <= s.tally.all.total
    && forall pc | pc in s.pcs && pc.Publishing? :: pc.total <= s.tally.all.total
  }

  ghost predicate StageOk(t: Test, s: System) {
    && (!s.stage.Working? ==> AllHalted(s))
    && (s.stage.Opening? ==> s.pcs == [] && s.buffer.pending == [])
    && ((s.stage.Flushing? || s.stage.Closing?) && Raised in s.pcs ==> s.stage.raised)
    && (s.stage.Closing? || s.stage.Finished? || s.stage.Escaped? ==> s.buffer.pending == [])
    && (s.stage.Finished? ==> s.run.status != RUNNING)
    && (s.run.status == RUNNING ==> s.run.reported == s.latest)
    && (s.run.status == SUCCEEDED ==> && s.stage.Finished? && Raised !in s.pcs && s.run.reported == s.tally.all.total
                                      && (t.mode.Count? ==> s.next == t.requestCount))
  }

  ghost predicate Inv(t: Test, s: System)
    ensures Inv(t, s) ==> ValidTest(t) && |s.tally.targets| == t.targets
  {
    && ValidTest(t) && ClaimsOk(s) && NumbersOk(s)
    && TallyOk(t, s) && ResponsesOk(t, s) && WorkersOk(t, s) && StageOk(t, s)
  }

  // ------------------------------------------------------------------ every worker step keeps them

  lemma StartOk(t: Test)
    requires ValidTest(t)
    ensures Inv(t, Start(t))
  {
    var s := Start(t);
    forall k: nat ensures ClaimAt(s, k) && NumberAt(s, k) {
      NoHolders(ClaimOf, s.pcs, k);
      NoHolders(NumberOf, s.pcs, k);
    }
    NoTotals(t.targets);
  }

  /** What counting a request leaves alone. */
  lemma CountedChanges(t: Test, s: System, w: nat, index: nat, world: World)
    requires ValidTest(t) && w < |s.pcs| && |s.tally.targets| == t.targets
    ensures var s' := Counted(t, s, w, index, world);
            && |s'.pcs| == |s.pcs| && s'.pcs[w].Responding? && s'.pcs == s.pcs[w := s'.pcs[w]]
            && s'.pcs[w].response == Response(s.tally.all.total + 1, index % t.targets, world.o)
            && s'.tally.all.total == s.tally.all.total + 1
            && s' == s.(pcs := s'.pcs, counted := s.counted + [index], tally := s'.tally)
  {
    hide Sampled, Bumped, Lower, Higher;
  }

  /** What handing over a response leaves alone. */
  lemma RespondedChanges(s: System, w: nat, r: Response, storeFails: bool)
    requires w < |s.pcs|
    ensures var s' := Responded(s, w, r, storeFails);
            && |s'.pcs| == |s.pcs| && s'.pcs == s.pcs[w := s'.pcs[w]] && (s'.pcs[w].Reporting? || s'.pcs[w].Raised?)
            && (s'.lost != s.lost ==> s'.pcs[w].Raised?)
            && s' == s.(pcs := s'.pcs, buffer := s'.buffer, lost := s'.lost)
  {
    hide Accepted, Numbers;
  }

  /** What publishing a snapshot leaves alone, and how far it goes. */
  lemma PublishedChanges(t: Test, s: System, w: nat, total: nat, updateFails: bool)
    requires w < |s.pcs|
    ensures var s' := Published(t, s, w, total, updateFails);
            && |s'.pcs| == |s.pcs| && s'.pcs == s.pcs[w := s'.pcs[w]]
            && (s'.pcs[w] == AfterReport(t) || s'.pcs[w].Raised?)
            && s' == s.(pcs := s'.pcs, run := s'.run, latest := s'.latest)
            && s'.run.status == s.run.status
            && (s'.latest == s.latest || s'.latest == total)
            && (s'.run == s.run || s'.run.reported == s'.latest == total)
            && (s.run.status == RUNNING && s.run.reported == s.latest ==> s'.run.reported == s'.latest)
  {
  }

  /** What every other step leaves alone. */
  lemma OtherChanges(t: Test, s: System, w: nat, world: World)
    requires ValidTest(t) && w < |s.pcs| && |s.tally.targets| == t.targets
    requires !s.pcs[w].Requesting? && !s.pcs[w].Responding?
    ensures var s' := WorkStep(t, s, w, world);
            && |s'.pcs| == |s.pcs| && s'.pcs == s.pcs[w := s'.pcs[w]] && !s'.pcs[w].Responding?
            && (if s'.pcs[w].Requesting? then s'.pcs[w].index == s.next && s'.next == s.next + 1 else s'.next == s.next)
            && s' == s.(pcs := s'.pcs, next := s'.next, run := s'.run, latest := s'.latest)
  {
    hide Published;
    if s.pcs[w].Publishing? {
      PublishedChanges(t, s, w, s.pcs[w].total, world.updateFails);
    }
  }

  lemma RequestingStep(t: Test, s: System, w: nat, world: World)
    requires ValidTest(t) && w < |s.pcs| && |s.tally.targets| == t.targets && s.pcs[w].Requesting?
    ensures var index := s.pcs[w].index;
            WorkStep(t, s, w, world) == if world.raises
                                        then Moved(s, w, Raised).(dropped := s.dropped + multiset{index})
                                        else Counted(t, s, w, index, world)
  {
  }

  lemma WorkKeepsClaim(t: Test, s: System, w: nat, world: World, k: nat)
    requires ValidTest(t) && w < |s.pcs| && |s.tally.targets| == t.targets && ClaimAt(s, k)
    ensures ClaimAt(WorkStep(t, s, w, world), k)
  {
    if s.pcs[w].Requesting? {
      RequestKeepsClaim(t, s, w, world, k);
    } else {
      OtherKeepsClaim(t, s, w, world, k);
    }
  }

  lemma RequestKeepsClaim(t: Test, s: System, w: nat, world: World, k: nat)
    requires ValidTest(t) && w < |s.pcs| && |s.tally.targets| == t.targets && ClaimAt(s, k) && s.pcs[w].Requesting?
    ensures ClaimAt(WorkStep(t, s, w, world), k)
  {
    hide WorkStep, Counted, Holders;
    RequestingStep(t, s, w, world);
    CountedChanges(t, s, w, s.pcs[w].index, world);
    HoldersAfter(ClaimOf, s.pcs, w, WorkStep(t, s, w, world).pcs[w], k);
  }

  lemma OtherKeepsClaim(t: Test, s: System, w: nat, world: World, k: nat)
    requires ValidTest(t) && w < |s.pcs| && |s.tally.targets| == t.targets && ClaimAt(s, k) && !s.pcs[w].Requesting?
    ensures ClaimAt(WorkStep(t, s, w, world), k)
  {
    hide WorkStep, Responded, Holders;
    if s.pcs[w].Responding? {
      RespondingStep(t, s, w, world);
      RespondedChanges(s, w, s.pcs[w].response, world.storeFails);
    } else {
      OtherChanges(t, s, w, world);
    }
    HoldersAfter(ClaimOf, s.pcs, w, WorkStep(t, s, w, world).pcs[w], k);
  }

  lemma RespondingStep(t: Test, s: System, w: nat, world: World)
    requires ValidTest(t) && w < |s.pcs| && |s.tally.targets| == t.targets && s.pcs[w].Responding?
    ensures WorkStep(t, s, w, world) == Responded(s, w, s.pcs[w].response, world.storeFails)
  {
  }

  lemma RespondKeepsNumber(s: System, w: nat, storeFails: bool, k: nat)
    requires w < |s.pcs| && s.pcs[w].Responding? && InOrder(s.buffer.stored) && NumberAt(s, k)
    ensures var s' := Responded(s, w, s.pcs[w].response, storeFails); InOrder(s'.buffer.stored) && NumberAt(s', k)
  {
    hide Accepted, Numbers, Holders, InOrder;
    var r := s.pcs[w].response;
    HoldersAfter(NumberOf, s.pcs, w, Responded(s, w, r, storeFails).pcs[w], k);
    AcceptedKeepsNumbers(s.buffer, r);
    ThreeAt(s.buffer, Accepted(s.buffer, r), r.sequence, k);
    NumbersConcat(s.buffer.pending, [r]);
    NumbersOne(r);
    EmptyNumbers();
  }

  lemma ThreeAt(b: Buffered, b': Buffered, n: nat, k: nat)
    requires Numbers(b'.stored) + Numbers(b'.pending) == Numbers(b.stored) + Numbers(b.pending) + multiset{n}
    ensures Numbers(b'.stored)[k] + Numbers(b'.pending)[k]
         == Numbers(b.stored)[k] + Numbers(b.pending)[k] + (if k == n then 1 else 0)
  {
    hide Numbers;
    assert (Numbers(b'.stored) + Numbers(b'.pending))[k] == (Numbers(b.stored) + Numbers(b.pending) + multiset{n})[k];
  }

  lemma EmptyNumbers()
    ensures Numbers([]) == multiset{}
  {
  }

  lemma WorkKeepsNumber(t: Test, s: System, w: nat, world: World, k: nat)
    requires ValidTest(t) && w < |s.pcs| && TallyOk(t, s) && InOrder(s.buffer.stored) && NumberAt(s, k)
    ensures var s' := WorkStep(t, s, w, world); InOrder(s'.buffer.stored) && NumberAt(s', k)
  {
    hide WorkStep, Numbers, Holders, InOrder, Counted, Hits, Balanced, Responded;
    if s.pcs[w].Responding? {
      RespondingStep(t, s, w, world);
      RespondKeepsNumber(s, w, world.storeFails, k);
    } else {
      if s.pcs[w].Requesting? {
        RequestingStep(t, s, w, world);
        CountedChanges(t, s, w, s.pcs[w].index, world);
      } else {
        OtherChanges(t, s, w, world);
      }
      HoldersAfter(NumberOf, s.pcs, w, WorkStep(t, s, w, world).pcs[w], k);
    }
  }

  lemma CountedKeepsTally(t: Test, s: System, w: nat, index: nat, world: World)
    requires ValidTest(t) && w < |s.pcs| && TallyOk(t, s)
    ensures TallyOk(t, Counted(t, s, w, index, world))
  {
    hide Sampled, Bumped, Lower, Higher, Totals, Balanced;
    RecordedStaysBalanced(s.tally, index % t.targets, world.o, world.draw, world.targetDraw);
    assert (s.counted + [index])[..|s.counted|] == s.counted;
  }

  lemma WorkKeepsTally(t: Test, s: System, w: nat, world: World)
    requires ValidTest(t) && w < |s.pcs| && TallyOk(t, s)
    ensures TallyOk(t, WorkStep(t, s, w, world))
  {
    hide Counted, UpdatedRun, Hits, Balanced, Responded;
    if s.pcs[w].Requesting? && !world.raises {
      CountedKeepsTally(t, s, w, s.pcs[w].index, world);
    } else {
      WorkLeavesTally(t, s, w, world);
    }
  }

  lemma WorkLeavesTally(t: Test, s: System, w: nat, world: World)
    requires ValidTest(t) && w < |s.pcs| && |s.tally.targets| == t.targets
    requires !(s.pcs[w].Requesting? && !world.raises)
    ensures var s' := WorkStep(t, s, w, world);
            && s'.tally == s.tally && s'.counted == s.counted
            && (s'.pcs[w].Responding? ==> s.pcs[w] == s'.pcs[w])
            && (s.pcs[w].Responding? || s'.buffer == s.buffer)
  {
    hide Counted, Responded, UpdatedRun;
    if s.pcs[w].Responding? {
      RespondedChanges(s, w, s.pcs[w].response, world.storeFails);
    }
  }

  lemma PcsAfter(pcs: seq<Pc>, w: nat, pc: Pc, x: Pc)
    requires w < |pcs|
    ensures x in pcs[w := pc] ==> x == pc || x in pcs
    ensures x in pcs && x != pcs[w] ==> x in pcs[w := pc]
    ensures pc in pcs[w := pc]
  {
    if x in pcs && x != pcs[w] {
      var i :| 0 <= i < |pcs| && pcs[i] == x;
      assert pcs[w := pc][i] == x;
    }
    assert pcs[w := pc][w] == pc;
  }

  lemma WorkMoves(t: Test, s: System, w: nat, world: World)
    requires ValidTest(t) && w < |s.pcs| && |s.tally.targets| == t.targets
    ensures |WorkStep(t, s, w, world).pcs| == |s.pcs|
    ensures WorkStep(t, s, w, world).pcs == s.pcs[w := WorkStep(t, s, w, world).pcs[w]]
  {
    hide Counted, Responded, UpdatedRun;
    if s.pcs[w].Requesting? {
      CountedChanges(t, s, w, s.pcs[w].index, world);
    } else if s.pcs[w].Responding? {
      RespondedChanges(s, w, s.pcs[w].response, world.storeFails);
    }
  }

  lemma WorkKeepsResponses(t: Test, s: System, w: nat, world: World)
    requires ValidTest(t) && w < |s.pcs| && TallyOk(t, s) && ResponsesOk(t, s) && InOrder(s.buffer.stored)
    ensures ResponsesOk(t, WorkStep(t, s, w, world))
  {
    hide WorkStep, Balanced, Hits, Accepted, Numbers, InOrder, Genuine;
    var s' := WorkStep(t, s, w, world);
    WorkMoves(t, s, w, world);
    forall pc | pc in s'.pcs ensures pc == s'.pcs[w] || pc in s.pcs {
      PcsAfter(s.pcs, w, s'.pcs[w], pc);
    }
    assert s.pcs[w] in s.pcs;
    if s.pcs[w].Requesting? && !world.raises {
      CountedIsGenuine(t, s, w, world);
    } else {
      WorkLeavesTally(t, s, w, world);
      WorkBuffers(t, s, w, world);
    }
  }

  lemma CountedIsGenuine(t: Test, s: System, w: nat, world: World)
    requires ValidTest(t) && w < |s.pcs| && TallyOk(t, s) && s.pcs[w].Requesting? && !world.raises
    ensures var s' := WorkStep(t, s, w, world);
            && s'.buffer == s.buffer && s'.pcs[w].Responding? && Genuine(t, s'.counted, s'.pcs[w].response)
            && forall r | Genuine(t, s.counted, r) :: Genuine(t, s'.counted, r)
  {
    hide Counted, Balanced, Hits;
    CountedChanges(t, s, w, s.pcs[w].index, world);
  }

  lemma WorkBuffers(t: Test, s: System, w: nat, world: World)
    requires ValidTest(t) && w < |s.pcs| && |s.tally.targets| == t.targets && InOrder(s.buffer.stored)
    ensures var s' := WorkStep(t, s, w, world);
            forall x | x in s'.buffer.stored || x in s'.buffer.pending ::
              x in s.buffer.stored || x in s.buffer.pending || (s.pcs[w].Responding? && x == s.pcs[w].response)
  {
    hide Recorded, Accepted, Numbers, UpdatedRun, InOrder;
    if s.pcs[w].Responding? {
      AcceptedKeepsNumbers(s.buffer, s.pcs[w].response);
    }
  }

  /** What a worker's step may do to the counters and to the errors. */
  ghost predicate Bounded(t: Test, s: System, w: nat, s': System)
    requires w < |s.pcs| == |s'.pcs|
  {
    var pc := s'.pcs[w];
    && s'.stage == s.stage && s'.cancelled == s.cancelled && s'.run.status == s.run.status
    && s.next <= s'.next && (t.mode.Count? ==> s'.next <= t.requestCount)
    && (t.mode.Count? && !s.cancelled && pc.Returned? && !s.pcs[w].Returned? ==> s'.next == t.requestCount)
    && (s'.lost != s.lost || s'.dropped != s.dropped ==> pc.Raised?)
    && (Halted(s.pcs[w]) ==> pc == s.pcs[w])
    && s.tally.all.total <= s'.tally.all.total
    && s'.latest <= s'.tally.all.total && s'.run.reported <= s'.tally.all.total
    && (s.run.status == RUNNING ==> s'.run.reported == s'.latest)
    && (pc.Publishing? ==> pc.total <= s'.tally.all.total)
  }

  lemma OtherBounds(t: Test, s: System, w: nat, world: World)
    requires ValidTest(t) && w < |s.pcs| && |s.tally.targets| == t.targets
    requires !s.pcs[w].Requesting? && !s.pcs[w].Responding? && !s.pcs[w].Publishing?
    requires (t.mode.Count? ==> s.next <= t.requestCount)
    requires s.latest <= s.tally.all.total && s.run.reported <= s.tally.all.total
    requires s.run.status == RUNNING ==> s.run.reported == s.latest
    ensures |WorkStep(t, s, w, world).pcs| == |s.pcs| && Bounded(t, s, w, WorkStep(t, s, w, world))
  {
  }

  lemma PublishBounds(t: Test, s: System, w: nat, world: World)
    requires ValidTest(t) && w < |s.pcs| && |s.tally.targets| == t.targets
    requires s.pcs[w].Publishing? && s.pcs[w].total <= s.tally.all.total
    requires (t.mode.Count? ==> s.next <= t.requestCount)
    requires s.latest <= s.tally.all.total && s.run.reported <= s.tally.all.total
    requires s.run.status == RUNNING ==> s.run.reported == s.latest
    ensures |WorkStep(t, s, w, world).pcs| == |s.pcs| && Bounded(t, s, w, WorkStep(t, s, w, world))
  {
    hide Published;
    PublishedChanges(t, s, w, s.pcs[w].total, world.updateFails);
  }

  lemma WorkBounds(t: Test, s: System, w: nat, world: World)
    requires ValidTest(t) && w < |s.pcs| && |s.tally.targets| == t.targets && WorkersOk(t, s)
    requires s.run.status == RUNNING ==> s.run.reported == s.latest
    ensures |WorkStep(t, s, w, world).pcs| == |s.pcs| && Bounded(t, s, w, WorkStep(t, s, w, world))
  {
    hide WorkStep, Counted, Responded, InTrouble;
    assert s.pcs[w] in s.pcs;
    if s.pcs[w].Requesting? {
      RequestingStep(t, s, w, world);
      CountedChanges(t, s, w, s.pcs[w].index, world);
    } else if s.pcs[w].Responding? {
      RespondingStep(t, s, w, world);
      RespondedChanges(s, w, s.pcs[w].response, world.storeFails);
    } else if s.pcs[w].Publishing? {
      PublishBounds(t, s, w, world);
    } else {
      OtherBounds(t, s, w, world);
    }
  }

  lemma WorkKeepsWorkers(t: Test, s: System, w: nat, world: World)
    requires ValidTest(t) && w < |s.pcs| && |s.tally.targets| == t.targets
    requires WorkersOk(t, s) && StageOk(t, s) && s.stage.Working?
    ensures WorkersOk(t, WorkStep(t, s, w, world)) && StageOk(t, WorkStep(t, s, w, world))
  {
    hide WorkStep;
    var s' := WorkStep(t, s, w, world);
    WorkMoves(t, s, w, world);
    WorkBounds(t, s, w, world);
    forall pc | pc in s'.pcs ensures pc == s'.pcs[w] || pc in s.pcs {
      PcsAfter(s.pcs, w, s'.pcs[w], pc);
    }
    PcsAfter(s.pcs, w, s'.pcs[w], Raised);
    assert Raised in s.pcs ==> Raised in s'.pcs;
    assert s.pcs[w] in s.pcs;
  }

  // ------------------------------------------------------------------ every service step keeps them

  /** The conserved quantities look neither at the stage, the run and the cancellation, nor at halted workers. */
  lemma Unchanged(t: Test, s: System, s': System)
    requires ValidTest(t) && ClaimsOk(s) && NumbersOk(s) && TallyOk(t, s) && ResponsesOk(t, s)
    requires s' == s.(stage := s'.stage, run := s'.run, cancelled := s'.cancelled, pcs := s'.pcs)
    requires s'.pcs == s.pcs || (s.pcs == [] && forall pc | pc in s'.pcs :: pc.Looping?)
    ensures ClaimsOk(s') && NumbersOk(s') && TallyOk(t, s') && ResponsesOk(t, s')
  {
    hide Numbers, Balanced, Hits, InOrder, Genuine;
    forall k: nat ensures ClaimAt(s', k) && NumberAt(s', k) {
      assert ClaimAt(s, k) && NumberAt(s, k);
      if s'.pcs != s.pcs {
        NoHolders(ClaimOf, s'.pcs, k);
        NoHolders(NumberOf, s'.pcs, k);
      }
    }
  }

  lemma OpenKeepsInv(t: Test, s: System, readFails: bool, raises: bool)
    requires Inv(t, s) && s.stage.Opening?
    ensures Inv(t, OpenStep(t, s, readFails, raises))
  {
    hide ClaimsOk, NumbersOk, TallyOk, ResponsesOk;
    Unchanged(t, s, OpenStep(t, s, readFails, raises));
  }

  lemma OthersKeepInv(t: Test, s: System)
    requires Inv(t, s)
    ensures Inv(t, Step(t, s, Join)) && Inv(t, Step(t, s, Cancel)) && Inv(t, Step(t, s, Recover))
  {
    hide ClaimsOk, NumbersOk, ResponsesOk, Balanced, Hits;
    Unchanged(t, s, Step(t, s, Join));
    Unchanged(t, s, Step(t, s, Cancel));
    Unchanged(t, s, Step(t, s, Recover));
  }

  lemma FlushKeepsNumber(s: System, storeFails: bool, k: nat)
    requires s.stage.Flushing? && InOrder(s.buffer.stored) && NumberAt(s, k)
    ensures InOrder(FlushStep(s, storeFails).buffer.stored) && NumberAt(FlushStep(s, storeFails), k)
  {
    hide Numbers, Holders, InOrder, Drained;
    DrainedKeepsNumbers(s.buffer);
    EmptyNumbers();
    assert (Numbers(s.buffer.stored) + Numbers(s.buffer.pending))[k]
           == Numbers(s.buffer.stored)[k] + Numbers(s.buffer.pending)[k];
  }

  lemma FlushKeepsInv(t: Test, s: System, storeFails: bool)
    requires Inv(t, s) && s.stage.Flushing?
    ensures Inv(t, FlushStep(s, storeFails))
  {
    hide Numbers, Balanced, Hits, Holders, InOrder, Genuine, Drained, NumberAt;
    var s' := FlushStep(s, storeFails);
    DrainedKeepsNumbers(s.buffer);
    FlushKeepsNumber(s, storeFails, 0);
    forall k: nat ensures ClaimAt(s', k) && NumberAt(s', k) {
      assert ClaimAt(s, k);
      FlushKeepsNumber(s, storeFails, k);
    }
  }

  lemma CloseKeepsInv(t: Test, s: System, updateFails: bool)
    requires Inv(t, s) && s.stage.Closing?
    ensures Inv(t, CloseStep(s, updateFails))
  {
    hide ClaimsOk, NumbersOk, ResponsesOk, Balanced, Hits;
    Unchanged(t, s, CloseStep(s, updateFails));
    assert s.pcs == [] || s.pcs[0] in s.pcs;
  }

  /** Every step of every worker and of the service keeps the invariant. */
  lemma StepKeepsInv(t: Test, s: System, e: Event)
    requires Inv(t, s)
    ensures Inv(t, Step(t, s, e))
  {
    hide ClaimAt, NumberAt, ResponsesOk, WorkersOk, StageOk, WorkStep, OpenStep, FlushStep, CloseStep, InOrder,
    Balanced, Hits;
    match e
    case Work(w, world) =>
      if w < |s.pcs| && s.stage.Working? {
        forall k: nat ensures ClaimAt(WorkStep(t, s, w, world), k) {
          WorkKeepsClaim(t, s, w, world, k);
        }
        WorkKeepsNumber(t, s, w, world, 0);
        forall k: nat ensures NumberAt(WorkStep(t, s, w, world), k) {
          WorkKeepsNumber(t, s, w, world, k);
        }
        WorkKeepsTally(t, s, w, world);
        WorkKeepsResponses(t, s, w, world);
        WorkKeepsWorkers(t, s, w, world);
      }
    case Open(readFails, raises) => if s.stage.Opening? { OpenKeepsInv(t, s, readFails, raises); }
    case Cancel => OthersKeepInv(t, s);
    case Join => OthersKeepInv(t, s);
    case Flush(storeFails) => if s.stage.Flushing? { FlushKeepsInv(t, s, storeFails); }
    case Close(updateFails) => if s.stage.Closing? { CloseKeepsInv(t, s, updateFails); }
    case Recover => OthersKeepInv(t, s);
  }
}
