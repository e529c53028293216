/** The metrics of a load test: counters, a bounded reservoir of latencies, and percentiles over it. */
module LoadMetrics {
  import opened Wrappers

  const SAMPLE_LIMIT := 10_000

  datatype Label = Label(text: string)

  /** One finished request. */
  datatype Observation = Observation(latency: real, success: bool, status: Option<int>, error: Option<Label>)

  datatype Values = Values(latencies: seq<real>, total: nat, latencySum: real, minimum: Option<real>,
                           maximum: Option<real>, successful: nat, failed: nat, statuses: map<int, nat>,
                           errors: map<Label, nat>)

  const NO_VALUES := Values([], 0, 0.0, None, None, 0, 0, map[], map[])

  function Bumped<K>(counts: map<K, nat>, key: Option<K>): map<K, nat> {
    if key.None? then counts
    else counts[key.value := (if key.value in counts then counts[key.value] else 0) + 1]
  }

  /** `draw` is the random index below the new total. */
  function Sampled(latencies: seq<real>, latency: real, draw: nat): seq<real> {
    if |latencies| < SAMPLE_LIMIT then latencies + [latency]
    else if draw < SAMPLE_LIMIT then latencies[draw := latency]
    else latencies
  }

  function Lower(least: Option<real>, x: real): real {
    if least.None? || x < least.value then x else least.value
  }

  function Higher(greatest: Option<real>, x: real): real {
    if greatest.None? || x > greatest.value then x else greatest.value
  }

  function Added(v: Values, o: Observation, draw: nat): Values {
    Values(Sampled(v.latencies, o.latency, draw), v.total + 1, v.latencySum + o.latency,
           Some(Lower(v.minimum, o.latency)), Some(Higher(v.maximum, o.latency)),
           v.successful + (if o.success then 1 else 0), v.failed + (if o.success then 0 else 1),
           Bumped(v.statuses, o.status), Bumped(v.errors, o.error))
  }

  class MetricValues {
    var latencies: seq<real>
    var total: nat
    var latencySum: real
    var minimum: Option<real>
    var maximum: Option<real>
    var successful: nat
    var failed: nat
    var statuses: map<int, nat>
    var errors: map<Label, nat>

    function State(): Values
      reads this
    {
      Values(latencies, total, latencySum, minimum, maximum, successful, failed, statuses, errors)
    }

    constructor ()
      ensures State() == NO_VALUES
    {
      latencies, total, latencySum, minimum, maximum := [], 0, 0.0, None, None;
      successful, failed, statuses, errors := 0, 0, map[], map[];
    }

    method Add(o: Observation, draw: nat)
      modifies this
      ensures State() == Added(old(State()), o, draw)
    {
      hide Bumped, Sampled, Lower, Higher;
      total := total + 1;
      latencySum := latencySum + o.latency;
      minimum := Some(Lower(minimum, o.latency));
      maximum := Some(Higher(maximum, o.latency));
      Sample(o.latency, draw);
      successful := successful + (if o.success then 1 else 0);
      failed := failed + (if o.success then 0 else 1);
      statuses := Increment(statuses, o.status);
      errors := Increment(errors, o.error);
    }

    /** Fills the reservoir, then replaces a random element of it. */
    method Sample(latency: real, draw: nat)
      modifies this`latencies
      ensures latencies == Sampled(old(latencies), latency, draw)
    {
      if |latencies| < SAMPLE_LIMIT {
        latencies := latencies + [latency];
      } else if draw < SAMPLE_LIMIT {
        latencies := latencies[draw := latency];
      }
    }
  }

  method Increment<K>(counts: map<K, nat>, key: Option<K>) returns (counted: map<K, nat>)
    ensures counted == Bumped(counts, key)
  {
    counted := counts;
    if key.Some? {
      counted := counts[key.value := (if key.value in counts then counts[key.value] else 0) + 1];
    }
  }

  // ------------------------------------------------------------------ what the values describe

  function Latencies(obs: seq<Observation>): seq<real> {
    if obs == [] then [] else Latencies(obs[..|obs| - 1]) + [obs[|obs| - 1].latency]
  }

  function Sum(xs: seq<real>): real {
    if xs == [] then 0.0 else Sum(xs[..|xs| - 1]) + xs[|xs| - 1]
  }

  function Successes(obs: seq<Observation>): nat {
    if obs == [] then 0 else Successes(obs[..|obs| - 1]) + (if obs[|obs| - 1].success then 1 else 0)
  }

  /** How many observations carry this status, or this error. */
  function WithStatus(obs: seq<Observation>, status: int): nat {
    if obs == [] then 0
    else WithStatus(obs[..|obs| - 1], status) + (if obs[|obs| - 1].status == Some(status) then 1 else 0)
  }

  function WithError(obs: seq<Observation>, error: Label): nat {
    if obs == [] then 0
    else WithError(obs[..|obs| - 1], error) + (if obs[|obs| - 1].error == Some(error) then 1 else 0)
  }

  function CountOf<K>(counts: map<K, nat>, key: K): nat {
    if key in counts then counts[key] else 0
  }

  predicate IsLeast(x: real, xs: seq<real>) {
    x in xs && forall y | y in xs :: x <= y
  }

  predicate IsGreatest(x: real, xs: seq<real>) {
    x in xs && forall y | y in xs :: y <= x
  }

  /** The counters are exact; the reservoir is a bounded part of what was observed. */
  ghost predicate Describes(v: Values, obs: seq<Observation>) {
    && v.total == |obs| && v.successful == Successes(obs) && v.failed == |obs| - Successes(obs)
    && v.latencySum == Sum(Latencies(obs))
    && Extremes(v.minimum, v.maximum, Latencies(obs))
    && Reservoir(v.latencies, Latencies(obs))
    && CountsStatuses(v.statuses, obs) && CountsErrors(v.errors, obs)
  }

  ghost predicate Extremes(minimum: Option<real>, maximum: Option<real>, xs: seq<real>) {
    if xs == [] then minimum.None? && maximum.None?
    else minimum.Some? && IsLeast(minimum.value, xs) && maximum.Some? && IsGreatest(maximum.value, xs)
  }

  ghost predicate Reservoir(kept: seq<real>, observed: seq<real>) {
    && |kept| == (if |observed| < SAMPLE_LIMIT then |observed| else SAMPLE_LIMIT)
    && multiset(kept) <= multiset(observed)
    && (|observed| <= SAMPLE_LIMIT ==> kept == observed)
  }

  ghost predicate CountsStatuses(counts: map<int, nat>, obs: seq<Observation>) {
    forall s :: CountOf(counts, s) == WithStatus(obs, s)
  }

  ghost predicate CountsErrors(counts: map<Label, nat>, obs: seq<Observation>) {
    forall e :: CountOf(counts, e) == WithError(obs, e)
  }

  lemma SampledKeepsReservoir(kept: seq<real>, observed: seq<real>, x: real, draw: nat)
    requires Reservoir(kept, observed)
    ensures Reservoir(Sampled(kept, x, draw), observed + [x])
  {
    if |kept| == SAMPLE_LIMIT && draw < SAMPLE_LIMIT {
      assert kept == kept[..draw] + [kept[draw]] + kept[draw + 1..];
      assert kept[draw := x] == kept[..draw] + [x] + kept[draw + 1..];
    }
  }

  /** In a full reservoir the drawn place, and only that, takes the new latency; a draw beyond it keeps all. */
  lemma FullReservoirReplaces(v: Values, o: Observation, draw: nat, k: nat)
    requires |v.latencies| == SAMPLE_LIMIT && k < SAMPLE_LIMIT
    ensures |Added(v, o, draw).latencies| == SAMPLE_LIMIT == 10_000
    ensures Added(v, o, draw).latencies[k] == if k == draw then o.latency else v.latencies[k]
  {
    hide Bumped, Lower, Higher;
  }

  lemma BumpedCountsStatuses(counts: map<int, nat>, obs: seq<Observation>, o: Observation)
    requires CountsStatuses(counts, obs)
    ensures CountsStatuses(Bumped(counts, o.status), obs + [o])
  {
    assert (obs + [o])[..|obs|] == obs;
    forall s ensures CountOf(Bumped(counts, o.status), s) == WithStatus(obs + [o], s) {
      assert CountOf(counts, s) == WithStatus(obs, s);
    }
  }

  lemma BumpedCountsErrors(counts: map<Label, nat>, obs: seq<Observation>, o: Observation)
    requires CountsErrors(counts, obs)
    ensures CountsErrors(Bumped(counts, o.error), obs + [o])
  {
    assert (obs + [o])[..|obs|] == obs;
    forall e ensures CountOf(Bumped(counts, o.error), e) == WithError(obs + [o], e) {
      assert CountOf(counts, e) == WithError(obs, e);
    }
  }

  lemma ExtremesFollow(v: Values, xs: seq<real>, o: Observation, draw: nat)
    requires Extremes(v.minimum, v.maximum, xs)
    ensures Extremes(Added(v, o, draw).minimum, Added(v, o, draw).maximum, xs + [o.latency])
  {
    hide Sampled, Bumped;
  }

  /** Adding an observation keeps the description. */
  lemma AddedDescribes(v: Values, obs: seq<Observation>, o: Observation, draw: nat)
    requires Describes(v, obs)
    ensures Describes(Added(v, o, draw), obs + [o])
  {
    hide Reservoir, Sampled, Bumped, Extremes, CountsStatuses, CountsErrors;
    var more := obs + [o];
    assert more[..|more| - 1] == obs;
    var xs := Latencies(more);
    assert xs[..|xs| - 1] == Latencies(obs);
    SampledKeepsReservoir(v.latencies, Latencies(obs), o.latency, draw);
    ExtremesFollow(v, Latencies(obs), o, draw);
    BumpedCountsStatuses(v.statuses, obs, o);
    BumpedCountsErrors(v.errors, obs, o);
    Lengths(obs);
  }

  lemma {:induction false} Lengths(obs: seq<Observation>)
    ensures |Latencies(obs)| == |obs| && Successes(obs) <= |obs|
  {
    if obs != [] { Lengths(obs[..|obs| - 1]); }
  }

  // ------------------------------------------------------------------ all requests and each target

  const SUCCESSFUL_SAMPLES := 5
  const FAILED_SAMPLES := 10

  /** A request kept as an example. */
  datatype Sample = Sample(target: nat, o: Observation)

  /** The overall values, those of each target by position, and the examples of either outcome. */
  datatype Tally = Tally(all: Values, targets: seq<Values>, succeeded: seq<Sample>, failed: seq<Sample>)

  function Kept(samples: seq<Sample>, sample: Sample, limit: nat): seq<Sample> {
    if |samples| < limit then samples + [sample] else samples
  }

  function Recorded(t: Tally, target: nat, o: Observation, draw: nat, targetDraw: nat): Tally
    requires target < |t.targets|
  {
    Tally(Added(t.all, o, draw), t.targets[target := Added(t.targets[target], o, targetDraw)],
          if o.success then Kept(t.succeeded, Sample(target, o), SUCCESSFUL_SAMPLES) else t.succeeded,
          if o.success then t.failed else Kept(t.failed, Sample(target, o), FAILED_SAMPLES))
  }

  function Totals(targets: seq<Values>): nat {
    if targets == [] then 0 else Totals(targets[..|targets| - 1]) + targets[|targets| - 1].total
  }

  class Metrics {
    const all: MetricValues
    const targets: seq<MetricValues>
    var succeeded: seq<Sample>
    var failed: seq<Sample>

    ghost predicate Valid()
      reads this
    {
      all !in targets && forall i, j | 0 <= i < j < |targets| :: targets[i] != targets[j]
    }

    function State(): Tally
      reads this, all, targets
    {
      Tally(all.State(), seq(|targets|, i requires 0 <= i < |targets| reads targets => targets[i].State()), succeeded,
            failed)
    }

    constructor (names: nat)
      ensures Valid() && fresh(all) && (forall m | m in targets :: fresh(m))
      ensures State() == Tallied(names, [])
    {
      var created: seq<MetricValues> := [];
      for i := 0 to names
        invariant |created| == i
        invariant forall m | m in created :: fresh(m) && m.State() == NO_VALUES
        invariant forall j, k | 0 <= j < k < i :: created[j] != created[k]
      {
        var values := new MetricValues();
        created := created + [values];
      }
      targets := created;
      all := new MetricValues();
      succeeded, failed := [], [];
      new;
      assert State().targets == seq(names, i => NO_VALUES);
    }

    /** Counts one request for its target and returns its place among all requests. */
    method Add(target: nat, o: Observation, draw: nat, targetDraw: nat) returns (place: nat)
      requires Valid() && target < |targets|
      modifies this, all, targets
      ensures Valid() && State() == Recorded(old(State()), target, o, draw, targetDraw)
      ensures place == State().all.total
    {
      hide Added;
      all.Add(o, draw);
      targets[target].Add(o, targetDraw);
      if o.success {
        if |succeeded| < SUCCESSFUL_SAMPLES {
          succeeded := succeeded + [Sample(target, o)];
        }
      } else if |failed| < FAILED_SAMPLES {
        failed := failed + [Sample(target, o)];
      }
      place := all.total;
      assert State().targets == Recorded(old(State()), target, o, draw, targetDraw).targets;
    }
  }

  lemma {:induction false} TotalsAfter(targets: seq<Values>, i: nat, v: Values)
    requires i < |targets| && v.total == targets[i].total + 1
    ensures Totals(targets[i := v]) == Totals(targets) + 1
  {
    var last := |targets| - 1;
    if i == last {
      assert targets[i := v][..last] == targets[..last];
    } else {
      TotalsAfter(targets[..last], i, v);
      assert targets[i := v][..last] == targets[..last][i := v];
    }
  }

  /** The overall total is the sum of the target totals, and of successes and failures. */
  ghost predicate Balanced(t: Tally) {
    t.all.total == t.all.successful + t.all.failed && t.all.total == Totals(t.targets)
  }

  lemma RecordedStaysBalanced(t: Tally, target: nat, o: Observation, draw: nat, targetDraw: nat)
    requires Balanced(t) && target < |t.targets|
    ensures Balanced(Recorded(t, target, o, draw, targetDraw))
  {
    hide Sampled, Bumped, Lower, Higher;
    TotalsAfter(t.targets, target, Added(t.targets[target], o, targetDraw));
  }

  /** One call of Metrics.Add. */
  datatype Call = Call(target: nat, o: Observation, draw: nat, targetDraw: nat)

  function Tallied(names: nat, calls: seq<Call>): (t: Tally)
    requires forall c | c in calls :: c.target < names
    ensures |t.targets| == names
  {
    if calls == [] then Tally(NO_VALUES, seq(names, i => NO_VALUES), [], [])
    else
      var c := calls[|calls| - 1];
      Recorded(Tallied(names, calls[..|calls| - 1]), c.target, c.o, c.draw, c.targetDraw)
  }

  function Observed(calls: seq<Call>): seq<Observation> {
    if calls == [] then [] else Observed(calls[..|calls| - 1]) + [calls[|calls| - 1].o]
  }

  function ObservedFor(calls: seq<Call>, target: nat): seq<Observation> {
    if calls == [] then []
    else ObservedFor(calls[..|calls| - 1], target)
         + (if calls[|calls| - 1].target == target then [calls[|calls| - 1].o] else [])
  }

  /** The calls of one outcome, in order. */
  function Samples(calls: seq<Call>, success: bool): seq<Sample> {
    if calls == [] then []
    else
      var last := calls[|calls| - 1];
      Samples(calls[..|calls| - 1], success) + (if last.o.success == success then [Sample(last.target, last.o)] else [])
  }

  function First(samples: seq<Sample>, limit: nat): seq<Sample> {
    if |samples| <= limit then samples else samples[..limit]
  }

  /** The examples kept are the first five successful and the first ten failed requests. */
  lemma {:induction false} SamplesAreTheFirst(names: nat, calls: seq<Call>)
    requires forall c | c in calls :: c.target < names
    ensures Tallied(names, calls).succeeded == First(Samples(calls, true), SUCCESSFUL_SAMPLES)
    ensures Tallied(names, calls).failed == First(Samples(calls, false), FAILED_SAMPLES)
  {
    hide Added;
    if calls != [] {
      var earlier, last := calls[..|calls| - 1], calls[|calls| - 1];
      SamplesAreTheFirst(names, earlier);
      KeptIsFirst(Samples(earlier, true), Sample(last.target, last.o), SUCCESSFUL_SAMPLES);
      KeptIsFirst(Samples(earlier, false), Sample(last.target, last.o), FAILED_SAMPLES);
    }
  }

  lemma KeptIsFirst(samples: seq<Sample>, sample: Sample, limit: nat)
    ensures Kept(First(samples, limit), sample, limit) == First(samples + [sample], limit)
  {
  }

  /** After any calls, the overall values describe all of them and every target's values describe its own. */
  lemma {:induction false} TallyDescribesCalls(names: nat, calls: seq<Call>)
    requires forall c | c in calls :: c.target < names
    ensures Balanced(Tallied(names, calls)) && Describes(Tallied(names, calls).all, Observed(calls))
    ensures forall i | 0 <= i < names :: Describes(Tallied(names, calls).targets[i], ObservedFor(calls, i))
  {
    hide Describes, Added;
    if calls == [] {
      NothingDescribed();
      NoTotals(names);
    } else {
      var earlier, c := calls[..|calls| - 1], calls[|calls| - 1];
      TallyDescribesCalls(names, earlier);
      var t := Tallied(names, earlier);
      RecordedStaysBalanced(t, c.target, c.o, c.draw, c.targetDraw);
      AddedDescribes(t.all, Observed(earlier), c.o, c.draw);
      AddedDescribes(t.targets[c.target], ObservedFor(earlier, c.target), c.o, c.targetDraw);
      forall i | 0 <= i < names && i != c.target ensures ObservedFor(calls, i) == ObservedFor(earlier, i) {
      }
    }
  }

  lemma NothingDescribed()
    ensures Describes(NO_VALUES, []) && Balanced(Tally(NO_VALUES, [], [], []))
  {
  }

  lemma {:induction false} NoTotals(names: nat)
    ensures Totals(seq(names, i => NO_VALUES)) == 0
  {
    if names > 0 {
      NoTotals(names - 1);
      assert seq(names, i => NO_VALUES)[..names - 1] == seq(names - 1, i => NO_VALUES);
    }
  }
}
