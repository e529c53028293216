/** Stored responses of a run: batches sorted in by sequence number, read back page by page. */
module LoadResponses {
  import opened Wrappers
  import opened LoadMetrics
  import opened Sorting

  type RunId = nat

  datatype Response = Response(sequence: nat, target: nat, o: Observation)

  const BATCH := 50

  // ------------------------------------------------------------------ sequence numbers

  function Sequences(rs: seq<Response>): (ns: seq<nat>)
    ensures |ns| == |rs| && forall i | 0 <= i < |rs| :: ns[i] == rs[i].sequence
  {
    seq(|rs|, i requires 0 <= i < |rs| => rs[i].sequence)
  }

  /** The sequence numbers held by a list of responses. */
  function Numbers(rs: seq<Response>): multiset<nat> {
    multiset(Sequences(rs))
  }

  /** 1 to n, each once. */
  function UpTo(n: nat): multiset<nat> {
    if n == 0 then multiset{} else UpTo(n - 1) + multiset{n}
  }

  predicate NotLater(x: Response, y: Response) {
    x.sequence <= y.sequence
  }

  predicate InOrder(rs: seq<Response>) {
    Ascending(NotLater, rs)
  }

  /** The responses sorted by sequence number. */
  function BySequence(rs: seq<Response>): seq<Response> {
    Sorted(NotLater, rs)
  }

  lemma NumbersConcat(a: seq<Response>, b: seq<Response>)
    ensures Numbers(a + b) == Numbers(a) + Numbers(b)
  {
    assert Sequences(a + b) == Sequences(a) + Sequences(b);
  }

  lemma NumbersOne(r: Response)
    ensures Numbers([r]) == multiset{r.sequence} && Numbers([]) == multiset{}
  {
    assert Sequences([r]) == [r.sequence];
  }

  lemma HeadSplits(rs: seq<Response>)
    requires rs != []
    ensures rs == [rs[0]] + rs[1..] && Numbers(rs) == Numbers([rs[0]]) + Numbers(rs[1..])
  {
    NumbersConcat([rs[0]], rs[1..]);
    assert rs == [rs[0]] + rs[1..];
  }

  lemma {:induction false} InsertedNumbers(r: Response, rs: seq<Response>)
    ensures Numbers(Insert(NotLater, r, rs)) == Numbers(rs) + multiset{r.sequence}
  {
    hide Numbers;
    NumbersOne(r);
    NumbersConcat([r], rs);
    if rs != [] {
      HeadSplits(rs);
      InsertedNumbers(r, rs[1..]);
      NumbersConcat([rs[0]], Insert(NotLater, r, rs[1..]));
    }
  }

  lemma {:induction false} SortedNumbers(rs: seq<Response>)
    ensures Numbers(BySequence(rs)) == Numbers(rs)
  {
    hide Numbers, Insert;
    if rs != [] {
      SortedNumbers(rs[1..]);
      InsertedNumbers(rs[0], BySequence(rs[1..]));
      HeadSplits(rs);
      NumbersOne(rs[0]);
    }
  }

  /** Sorting keeps every response, in order of sequence numbers. */
  lemma BySequenceKeeps(rs: seq<Response>)
    ensures InOrder(BySequence(rs)) && multiset(BySequence(rs)) == multiset(rs)
    ensures Numbers(BySequence(rs)) == Numbers(rs) && forall x | x in BySequence(rs) :: x in rs
  {
    SortedKeeps(NotLater, rs);
    SortedNumbers(rs);
  }

  lemma {:induction false} UpToHolds(n: nat, k: nat)
    ensures UpTo(n)[k] == if 1 <= k <= n then 1 else 0
  {
    if n > 0 { UpToHolds(n - 1, k); }
  }

  lemma NumbersMember(rs: seq<Response>, k: nat)
    ensures k in Numbers(rs) <==> exists i | 0 <= i < |rs| :: rs[i].sequence == k
  {
    assert k in Numbers(rs) <==> k in Sequences(rs);
  }

  /** A sorted list holding exactly the numbers 1 to n holds number k + 1 at place k. */
  lemma {:induction false} OrderedNumbersCount(rs: seq<Response>, n: nat)
    requires InOrder(rs) && Numbers(rs) == UpTo(n)
    ensures |rs| == n && forall k | 0 <= k < n :: rs[k].sequence == k + 1
  {
    hide Numbers, UpTo;
    UpToHolds(n, n);
    NumbersMember(rs, n);
    if rs != [] {
      var rest, last := rs[..|rs| - 1], rs[|rs| - 1];
      NumbersMember(rs, last.sequence);
      UpToHolds(n, last.sequence);
      assert last.sequence == n;
      NumbersConcat(rest, [last]);
      NumbersOne(last);
      assert rs == rest + [last];
      UpToLast(n);
      assert Numbers(rest) == Numbers(rs) - multiset{n} == UpTo(n - 1);
      OrderedNumbersCount(rest, n - 1);
    }
  }

  lemma UpToLast(n: nat)
    requires n > 0
    ensures UpTo(n) == UpTo(n - 1) + multiset{n}
  {
  }

  // ------------------------------------------------------------------ pages

  function Min(a: nat, b: nat): nat {
    if a < b then a else b
  }

  function Page<T>(items: seq<T>, offset: nat, limit: nat): seq<T> {
    items[Min(offset, |items|)..Min(offset + limit, |items|)]
  }

  /** The first `n` pages, one after the other. */
  function Pages<T>(items: seq<T>, limit: nat, n: nat): seq<T> {
    if n == 0 then [] else Pages(items, limit, n - 1) + Page(items, (n - 1) * limit, limit)
  }

  /** Reading page by page yields the items in order, without gap or repetition. */
  lemma {:induction false} PagesAreAPrefix<T>(items: seq<T>, limit: nat, n: nat)
    ensures Pages(items, limit, n) == items[..Min(n * limit, |items|)]
  {
    if n > 0 {
      PagesAreAPrefix(items, limit, n - 1);
      assert (n - 1) * limit + limit == n * limit;
      assert 0 <= (n - 1) * limit <= n * limit;
    }
  }

  /** Enough pages yield everything. */
  lemma PagesReadAll<T>(items: seq<T>, limit: nat, n: nat)
    requires n * limit >= |items|
    ensures Pages(items, limit, n) == items
  {
    PagesAreAPrefix(items, limit, n);
  }

  function Selected(rs: seq<Response>, successful: Option<bool>): seq<Response> {
    if rs == [] then []
    else
      var earlier := Selected(rs[..|rs| - 1], successful);
      var last := rs[|rs| - 1];
      if successful.None? || last.o.success == successful.value then earlier + [last] else earlier
  }

  lemma {:induction false} EverythingSelected(rs: seq<Response>)
    ensures Selected(rs, None) == rs
  {
    if rs != [] { EverythingSelected(rs[..|rs| - 1]); }
  }

  predicate Passes(r: Response, successful: Option<bool>) {
    successful == None || successful == Some(r.o.success)
  }

  /** The places below `n` whose response passes the filter. */
  function Passing(rs: seq<Response>, successful: Option<bool>, n: nat): set<nat>
    requires n <= |rs|
  {
    set j: nat | j < n && Passes(rs[j], successful)
  }

  lemma PassingBefore(rs: seq<Response>, successful: Option<bool>, n: nat)
    requires n < |rs|
    ensures Passing(rs[..|rs| - 1], successful, n) == Passing(rs, successful, n)
    ensures Passing(rs, successful, n + 1) == Passing(rs, successful, n) + if Passes(rs[n], successful) then {n} else {}
    ensures n !in Passing(rs, successful, n)
  {
  }

  /** Exactly the responses that pass the filter are selected, each at its rank among them. */
  lemma {:induction false} SelectedExactly(rs: seq<Response>, successful: Option<bool>, i: nat)
    requires i < |rs|
    ensures |Selected(rs, successful)| == |Passing(rs, successful, |rs|)|
    ensures var rank := |Passing(rs, successful, i)|;
            Passes(rs[i], successful) ==> rank < |Selected(rs, successful)| && Selected(rs, successful)[rank] == rs[i]
  {
    hide Passing, Passes;
    SelectedSize(rs, successful);
    SelectedSize(rs[..|rs| - 1], successful);
    PassingBefore(rs, successful, i);
    SelectedLast(rs, successful);
    if i < |rs| - 1 {
      SelectedExactly(rs[..|rs| - 1], successful, i);
    }
  }

  lemma SelectedLast(rs: seq<Response>, successful: Option<bool>)
    requires rs != []
    ensures Selected(rs, successful)
         == Selected(rs[..|rs| - 1], successful) + if Passes(rs[|rs| - 1], successful) then [rs[|rs| - 1]] else []
  {
  }

  lemma {:induction false} SelectedSize(rs: seq<Response>, successful: Option<bool>)
    ensures |Selected(rs, successful)| == |Passing(rs, successful, |rs|)|
  {
    if rs != [] {
      hide Passing, Passes, Selected;
      SelectedSize(rs[..|rs| - 1], successful);
      PassingBefore(rs, successful, |rs| - 1);
      SelectedLast(rs, successful);
    }
  }

  // ------------------------------------------------------------------ the repository and the buffer

  datatype RunStatus = RUNNING | SUCCEEDED | FAILED
  datatype Run = Run(status: RunStatus, reported: nat)

  function UpdatedRun(run: Run, status: RunStatus, reported: nat): Run {
    if run.status != RUNNING then run else Run(status, reported)
  }

  class LoadTestRepository {
    var runs: map<RunId, Run>
    var responses: map<RunId, seq<Response>>

    constructor ()
      ensures runs == map[] && responses == map[]
    {
      runs, responses := map[], map[];
    }

    /** False stands for the missing-run error. */
    method AddRunResponses(run: RunId, batch: seq<Response>) returns (ok: bool)
      modifies this`responses
      ensures ok == (run in runs)
      ensures responses == if ok then old(responses)[run := BySequence(Stored(old(responses), run) + batch)]
                           else old(responses)
    {
      if run !in runs {
        return false;
      }
      if run !in responses {
        responses := responses[run := []];
      }
      responses := responses[run := responses[run] + batch];
      responses := responses[run := BySequence(responses[run])];
      return true;
    }

    method ListRunResponses(run: RunId, offset: nat, limit: nat, successful: Option<bool>)
      returns (page: Option<(seq<Response>, nat)>)
      ensures page.Some? <==> run in runs
      ensures page.Some? ==>
                var items := Selected(Stored(responses, run), successful);
                page.value == (Page(items, offset, limit), |items|)
    {
      if run !in runs {
        return None;
      }
      var items := Selected(Stored(responses, run), successful);
      return Some((Page(items, offset, limit), |items|));
    }

    method UpdateRun(run: RunId, status: RunStatus, reported: nat) returns (ok: bool)
      modifies this`runs
      ensures ok == (run in old(runs))
      ensures runs == if ok then old(runs)[run := UpdatedRun(old(runs)[run], status, reported)] else old(runs)
    {
      if run !in runs {
        return false;
      }
      if runs[run].status == RUNNING {
        runs := runs[run := Run(status, reported)];
      }
      return true;
    }

    /** The start-up sweep: every run that still reads RUNNING is marked FAILED, and nothing else changes. */
    method RecoverRunningRuns() returns (recovered: nat)
      modifies this`runs
      ensures recovered == |Interrupted(old(runs))| && Interrupted(runs) == {}
      ensures runs.Keys == old(runs).Keys
      ensures forall id | id in runs :: runs[id] == UpdatedRun(old(runs)[id], FAILED, old(runs)[id].reported)
    {
      var rest := Interrupted(runs);
      recovered := |rest|;
      while rest != {}
        invariant rest <= Interrupted(old(runs)) && runs.Keys == old(runs).Keys
        invariant forall id | id in runs ::
                    runs[id] == if id in rest then old(runs)[id]
                                else UpdatedRun(old(runs)[id], FAILED, old(runs)[id].reported)
      {
        var id :| id in rest;
        runs := runs[id := Run(FAILED, runs[id].reported)];
        rest := rest - {id};
      }
    }
  }

  /** The runs that still read RUNNING. */
  function Interrupted(runs: map<RunId, Run>): set<RunId> {
    set id | id in runs && runs[id].status == RUNNING
  }

  function Stored(responses: map<RunId, seq<Response>>, run: RunId): seq<Response> {
    if run in responses then responses[run] else []
  }

  /** What a response does to the buffer and the store. */
  datatype Buffered = Buffered(pending: seq<Response>, stored: seq<Response>)

  function Drained(b: Buffered): Buffered {
    Buffered([], BySequence(b.stored + b.pending))
  }

  function Accepted(b: Buffered, r: Response): Buffered {
    var more := b.(pending := b.pending + [r]);
    if |more.pending| >= BATCH then Drained(more) else more
  }

  class ResponseBuffer {
    const repository: LoadTestRepository
    const run: RunId
    var pending: seq<Response>

    constructor (repository: LoadTestRepository, run: RunId)
      ensures this.repository == repository && this.run == run && pending == []
    {
      this.repository, this.run, pending := repository, run, [];
    }

    function State(): Buffered
      reads this, repository
    {
      Buffered(pending, Stored(repository.responses, run))
    }

    /** False stands for the error of a store that refuses the batch; the batch is gone then. */
    method Responses(r: Response) returns (ok: bool)
      modifies this, repository`responses
      ensures ok <==> |old(pending)| + 1 < BATCH || run in repository.runs
      ensures if ok then State() == Accepted(old(State()), r)
              else pending == [] && repository.responses == old(repository.responses)
    {
      pending := pending + [r];
      ok := true;
      if |pending| >= BATCH {
        var batch := pending;
        pending := [];
        ok := repository.AddRunResponses(run, batch);
      }
    }

    method Flush() returns (ok: bool)
      modifies this, repository`responses
      ensures ok <==> old(pending) == [] || run in repository.runs
      ensures if ok then State() == if old(pending) == [] then old(State()) else Drained(old(State()))
              else pending == [] && repository.responses == old(repository.responses)
    {
      ok := true;
      if pending != [] {
        var batch := pending;
        pending := [];
        ok := repository.AddRunResponses(run, batch);
      }
    }
  }

  /** Accepting a response and draining the buffer keep every number and the order of the store. */
  lemma AcceptedKeepsNumbers(b: Buffered, r: Response)
    requires InOrder(b.stored)
    ensures InOrder(Accepted(b, r).stored)
    ensures Numbers(Accepted(b, r).stored) + Numbers(Accepted(b, r).pending)
            == Numbers(b.stored) + Numbers(b.pending) + multiset{r.sequence}
    ensures forall x | x in Accepted(b, r).stored || x in Accepted(b, r).pending ::
              x == r || x in b.stored || x in b.pending
  {
    hide BySequence, Numbers, InOrder;
    var more := b.(pending := b.pending + [r]);
    NumbersConcat(b.pending, [r]);
    NumbersOne(r);
    DrainedKeepsNumbers(more);
  }

  lemma DrainedKeepsNumbers(b: Buffered)
    ensures InOrder(Drained(b).stored) && Drained(b).pending == []
    ensures Numbers(Drained(b).stored) == Numbers(b.stored) + Numbers(b.pending)
    ensures forall x | x in Drained(b).stored :: x in b.stored || x in b.pending
  {
    hide BySequence, Numbers, InOrder;
    BySequenceKeeps(b.stored + b.pending);
    NumbersConcat(b.stored, b.pending);
  }

  /** The buffer and the store after a whole sequence of responses. */
  function AcceptedAll(rs: seq<Response>): Buffered {
    if rs == [] then Buffered([], []) else Accepted(AcceptedAll(rs[..|rs| - 1]), rs[|rs| - 1])
  }

  /** Every fiftieth response moves all buffered ones to the store; fewer than fifty wait, in order. */
  lemma {:induction false} BatchesOfFifty(rs: seq<Response>)
    ensures AcceptedAll(rs).pending == rs[|rs| - |rs| % 50..] && |AcceptedAll(rs).stored| == |rs| - |rs| % 50
  {
    hide Accepted;
    if rs != [] {
      BatchesOfFifty(rs[..|rs| - 1]);
      NextOfFifty(|rs|);
      OneMoreBuffered(AcceptedAll(rs[..|rs| - 1]), rs, (|rs| - 1) % 50);
    }
  }

  lemma NextOfFifty(n: nat)
    requires n > 0
    ensures n % 50 == (if (n - 1) % 50 == 49 then 0 else (n - 1) % 50 + 1)
  {
  }

  lemma OneMoreBuffered(b: Buffered, rs: seq<Response>, waiting: nat)
    requires rs != [] && waiting < 50 && waiting < |rs|
    requires b.pending == rs[..|rs| - 1][|rs| - 1 - waiting..] && |b.stored| == |rs| - 1 - waiting
    ensures var next := Accepted(b, rs[|rs| - 1]);
            if waiting == 49 then next.pending == [] && |next.stored| == |rs|
            else next.pending == rs[|rs| - waiting - 1..] && |next.stored| == |rs| - waiting - 1
  {
    hide BySequence;
    assert b.pending + [rs[|rs| - 1]] == rs[|rs| - waiting - 1..];
    SortedLength(b.stored + (b.pending + [rs[|rs| - 1]]));
  }

  lemma SortedLength(rs: seq<Response>)
    ensures |BySequence(rs)| == |rs|
  {
    BySequenceKeeps(rs);
    assert |multiset(BySequence(rs))| == |multiset(rs)|;
  }
}
