/** The reported extremes and percentiles, with round-half-to-even on ranks and on milliseconds. */
module LoadSummary {
  import opened Wrappers
  import opened LoadMetrics
  import opened Sorting

  function RoundHalfEven(x: real): int {
    var below := x.Floor;
    var rest := x - below as real;
    if rest < 0.5 then below
    else if rest > 0.5 then below + 1
    else if below % 2 == 0 then below
    else below + 1
  }

  /** The result is the only integer within one half, the even one on a tie. */
  lemma RoundsToNearest(x: real, n: int)
    ensures n == RoundHalfEven(x)
       <==> && n as real - 0.5 <= x <= n as real + 0.5
            && (x == n as real - 0.5 || x == n as real + 0.5 ==> n % 2 == 0)
  {
    var below := x.Floor;
    if n as real - 0.5 <= x <= n as real + 0.5 {
      assert n == below || n == below + 1;
    }
  }

  lemma RoundingIsMonotone(x: real, y: real)
    requires x <= y
    ensures RoundHalfEven(x) <= RoundHalfEven(y)
  {
    RoundsToNearest(x, RoundHalfEven(x));
    RoundsToNearest(y, RoundHalfEven(y));
  }

  /** To three decimals. */
  function Round3(x: real): real {
    RoundHalfEven(x * 1000.0) as real / 1000.0
  }

  lemma Round3IsMonotone(x: real, y: real)
    requires x <= y
    ensures Round3(x) <= Round3(y)
  {
    RoundingIsMonotone(x * 1000.0, y * 1000.0);
  }

  // ------------------------------------------------------------------ order statistics

  predicate AtMost(x: real, y: real) {
    x <= y
  }

  /** The samples in ascending order. */
  function Ordered(xs: seq<real>): (r: seq<real>)
    ensures |r| == |xs|
  {
    Sorted(AtMost, xs)
  }

  lemma OrderedSorts(xs: seq<real>)
    ensures Ascending(AtMost, Ordered(xs)) && multiset(Ordered(xs)) == multiset(xs)
  {
    SortedKeeps(AtMost, xs);
  }

  function Clamp(index: int, length: nat): (k: nat)
    requires length > 0
    ensures k < length
  {
    var atLeastZero := if index > 0 then index else 0;
    if atLeastZero < length - 1 then atLeastZero else length - 1
  }

  /** The place of the percentile among the samples, before rounding. */
  function Place(length: nat, ratio: real): real
    requires length > 0
  {
    (length - 1) as real * ratio
  }

  function Rank(length: nat, ratio: real): (k: nat)
    requires length > 0
    ensures k < length
  {
    Clamp(RoundHalfEven(Place(length, ratio)), length)
  }

  lemma PlaceGrows(length: nat, low: real, high: real)
    requires length > 0 && low <= high
    ensures Place(length, low) <= Place(length, high)
    ensures Place(length, 0.0) == 0.0 && Place(length, 1.0) == (length - 1) as real
  {
  }

  lemma WholeStays(n: int)
    ensures RoundHalfEven(n as real) == n
  {
  }

  /** The clamping never changes the rounded rank. */
  lemma RankIsRounded(length: nat, ratio: real)
    requires length > 0 && 0.0 <= ratio <= 1.0
    ensures Rank(length, ratio) == RoundHalfEven(Place(length, ratio))
  {
    hide Place, RoundHalfEven;
    PlaceGrows(length, 0.0, ratio);
    PlaceGrows(length, ratio, 1.0);
    RoundingIsMonotone(0.0, Place(length, ratio));
    RoundingIsMonotone(Place(length, ratio), (length - 1) as real);
    WholeStays(0);
    WholeStays(length - 1);
  }

  lemma RankIsMonotone(length: nat, low: real, high: real)
    requires length > 0 && 0.0 <= low <= high <= 1.0
    ensures Rank(length, low) <= Rank(length, high)
  {
    hide Place, RoundHalfEven;
    PlaceGrows(length, low, high);
    RoundingIsMonotone(Place(length, low), Place(length, high));
  }

  function Percentile(v: Values, ratio: real): real
    requires v.latencies != []
  {
    Round3(Ordered(v.latencies)[Rank(|v.latencies|, ratio)])
  }

  /** `statuses` and `errors` are the two dictionaries of counts. */
  datatype Summary = Summary(total: nat, successful: nat, failed: nat, perSecond: real, average: real, least: real,
                             greatest: real, p50: real, p95: real, p99: real, statuses: map<int, nat>,
                             errors: map<Label, nat>)

  function OrZero(x: Option<real>): real {
    if x.Some? then x.value else 0.0
  }

  /** The running time, kept away from zero. */
  function Elapsed(started: real, now: real): (elapsed: real)
    ensures elapsed >= 0.000001 && elapsed >= now - started
    ensures elapsed == 0.000001 || elapsed == now - started
  {
    if now - started > 0.000001 then now - started else 0.000001
  }

  function Summarize(v: Values, elapsed: real): Summary
    requires v.total > 0 ==> v.latencies != []
    requires elapsed > 0.0
  {
    if v.total == 0 then Summary(0, 0, 0, 0.0, 0.0, 0.0, 0.0, 0.0, 0.0, 0.0, map[], map[])
    else Summary(v.total, v.successful, v.failed, Round3(v.total as real / elapsed),
                 Round3(v.latencySum / v.total as real), Round3(OrZero(v.minimum)), Round3(OrZero(v.maximum)),
                 Percentile(v, 0.50), Percentile(v, 0.95), Percentile(v, 0.99), v.statuses, v.errors)
  }

  lemma PercentilesAscend(v: Values, low: real, high: real)
    requires v.latencies != [] && 0.0 <= low <= high <= 1.0
    ensures Percentile(v, low) <= Percentile(v, high)
  {
    hide Round3, Rank;
    OrderedSorts(v.latencies);
    RankIsMonotone(|v.latencies|, low, high);
    Round3IsMonotone(Ordered(v.latencies)[Rank(|v.latencies|, low)], Ordered(v.latencies)[Rank(|v.latencies|, high)]);
  }

  lemma OrderedHoldsSame(xs: seq<real>, k: nat)
    requires k < |xs|
    ensures Ordered(xs)[k] in multiset(xs)
  {
    OrderedSorts(xs);
    assert Ordered(xs)[k] in multiset(Ordered(xs));
  }

  lemma BetweenExtremes(minimum: Option<real>, maximum: Option<real>, xs: seq<real>, x: real)
    requires Extremes(minimum, maximum, xs) && x in xs
    ensures minimum.Some? && maximum.Some? && minimum.value <= x <= maximum.value
  {
  }

  lemma PercentileIsObserved(v: Values, obs: seq<Observation>, ratio: real)
    requires Describes(v, obs) && obs != []
    ensures v.latencies != [] && Ordered(v.latencies)[Rank(|v.latencies|, ratio)] in Latencies(obs)
    ensures Round3(v.minimum.value) <= Percentile(v, ratio) <= Round3(v.maximum.value)
  {
    hide Round3, Rank, Ordered, CountsStatuses, CountsErrors, Sum, Extremes;
    Lengths(obs);
    OrderedHoldsSame(v.latencies, Rank(|v.latencies|, ratio));
    var x := Ordered(v.latencies)[Rank(|v.latencies|, ratio)];
    assert x in multiset(Latencies(obs));
    BetweenExtremes(v.minimum, v.maximum, Latencies(obs), x);
    Round3IsMonotone(v.minimum.value, x);
    Round3IsMonotone(x, v.maximum.value);
  }

  /** Whatever was observed, the report is ordered and its counters agree. */
  lemma SummaryIsOrdered(v: Values, obs: seq<Observation>, elapsed: real)
    requires Describes(v, obs) && elapsed > 0.0
    ensures v.total > 0 ==> v.latencies != []
    ensures var s := Summarize(v, elapsed);
            && s.total == |obs| == s.successful + s.failed
            && s.least <= s.p50 <= s.p95 <= s.p99 <= s.greatest
  {
    hide Round3, Percentile;
    Lengths(obs);
    if obs != [] {
      PercentileIsObserved(v, obs, 0.50);
      PercentileIsObserved(v, obs, 0.99);
      PercentilesAscend(v, 0.50, 0.95);
      PercentilesAscend(v, 0.95, 0.99);
    }
  }

  /** Until the reservoir is full, a percentile is the order statistic of all observations. */
  lemma PercentileIsExact(v: Values, obs: seq<Observation>, ratio: real)
    requires Describes(v, obs) && 0 < |obs| <= SAMPLE_LIMIT && 0.0 <= ratio <= 1.0
    ensures var sorted := Ordered(Latencies(obs));
            && Ascending(AtMost, sorted) && multiset(sorted) == multiset(Latencies(obs))
            && 0 <= RoundHalfEven(Place(|obs|, ratio)) < |sorted| && v.latencies != []
            && Percentile(v, ratio) == Round3(sorted[RoundHalfEven(Place(|obs|, ratio))])
  {
    hide Round3, Ordered, RoundHalfEven, Place, Ascending, CountsStatuses, CountsErrors, Sum, Rank;
    Lengths(obs);
    OrderedSorts(Latencies(obs));
    RankIsRounded(|obs|, ratio);
    assert v.latencies == Latencies(obs);
  }

  // ------------------------------------------------------------------ the report said without the computation

  /** The integer nearest to `x`, the even one on a tie. */
  predicate IsNearest(x: real, n: int) {
    && n as real - 0.5 <= x <= n as real + 0.5
    && (x == n as real - 0.5 || x == n as real + 0.5 ==> n % 2 == 0)
  }

  predicate IsThousandths(x: real, r: real, n: int) {
    r * 1000.0 == n as real && IsNearest(x * 1000.0, n)
  }

  /** `r` is the multiple of 0.001 nearest to `x`, the even one on a tie. */
  ghost predicate IsReported(x: real, r: real) {
    exists n :: IsThousandths(x, r, n)
  }

  /** `sorted` is the samples in ascending order, and `k` the rank nearest to `ratio`. */
  ghost predicate HasRank(xs: seq<real>, ratio: real, sorted: seq<real>, k: nat) {
    && k < |xs| == |sorted| && multiset(sorted) == multiset(xs)
    && (forall i, j | 0 <= i <= j < |sorted| :: sorted[i] <= sorted[j])
    && IsNearest((|xs| - 1) as real * ratio, k)
  }

  /** `r` reports the value at the nearest rank of `ratio` among the samples. */
  ghost predicate IsPercentile(xs: seq<real>, ratio: real, r: real) {
    exists sorted, k :: HasRank(xs, ratio, sorted, k) && IsReported(sorted[k], r)
  }

  function LatenciesOf(obs: seq<Observation>): seq<real> {
    seq(|obs|, i requires 0 <= i < |obs| => obs[i].latency)
  }

  lemma ReportedIsRounded(x: real)
    ensures IsReported(x, Round3(x))
  {
    RoundsToNearest(x * 1000.0, RoundHalfEven(x * 1000.0));
    assert IsThousandths(x, Round3(x), RoundHalfEven(x * 1000.0));
  }

  lemma RankIsNearest(xs: seq<real>, ratio: real)
    requires xs != [] && 0.0 <= ratio <= 1.0
    ensures HasRank(xs, ratio, Ordered(xs), Rank(|xs|, ratio))
  {
    hide Ordered, Rank, RoundHalfEven;
    OrderedSorts(xs);
    RankIsRounded(|xs|, ratio);
    RoundsToNearest(Place(|xs|, ratio), Rank(|xs|, ratio));
    forall i, j | 0 <= i <= j < |xs|
      ensures Ordered(xs)[i] <= Ordered(xs)[j]
    {
      assert i < j ==> AtMost(Ordered(xs)[i], Ordered(xs)[j]);
    }
  }

  lemma PercentileIsNearestRank(v: Values, ratio: real)
    requires v.latencies != [] && 0.0 <= ratio <= 1.0
    ensures IsPercentile(v.latencies, ratio, Percentile(v, ratio))
  {
    hide Round3, Ordered, Rank, IsReported, HasRank;
    RankIsNearest(v.latencies, ratio);
    ReportedIsRounded(Ordered(v.latencies)[Rank(|v.latencies|, ratio)]);
  }

  lemma {:induction false} LatenciesInOrder(obs: seq<Observation>)
    ensures Latencies(obs) == LatenciesOf(obs)
  {
    if obs != [] {
      LatenciesInOrder(obs[..|obs| - 1]);
    }
  }

  /** The places of the observations that pass the test. */
  function Where(obs: seq<Observation>, test: Observation -> bool): set<nat> {
    set i: nat | i < |obs| && test(obs[i])
  }

  lemma WhereGrows(obs: seq<Observation>, test: Observation -> bool)
    requires obs != []
    ensures |Where(obs, test)|
            == |Where(obs[..|obs| - 1], test)| + if test(obs[|obs| - 1]) then 1 else 0
  {
    var front := obs[..|obs| - 1];
    assert Where(obs, test) == Where(front, test) + if test(obs[|obs| - 1]) then {|front|} else {};
  }

  lemma {:induction false} CountsAre(obs: seq<Observation>, status: int, error: Label)
    ensures Successes(obs) == |Where(obs, (o: Observation) => o.success)|
    ensures |obs| - Successes(obs) == |Where(obs, (o: Observation) => !o.success)|
    ensures WithStatus(obs, status) == |Where(obs, (o: Observation) => o.status == Some(status))|
    ensures WithError(obs, error) == |Where(obs, (o: Observation) => o.error == Some(error))|
  {
    hide Where;
    if obs == [] {
      NowhereAtFirst((o: Observation) => o.success);
      NowhereAtFirst((o: Observation) => !o.success);
      NowhereAtFirst((o: Observation) => o.status == Some(status));
      NowhereAtFirst((o: Observation) => o.error == Some(error));
    } else {
      CountsAre(obs[..|obs| - 1], status, error);
      WhereGrows(obs, (o: Observation) => o.success);
      WhereGrows(obs, (o: Observation) => !o.success);
      WhereGrows(obs, (o: Observation) => o.status == Some(status));
      WhereGrows(obs, (o: Observation) => o.error == Some(error));
    }
  }

  lemma NowhereAtFirst(test: Observation -> bool)
    ensures Where([], test) == {}
  {
  }

  /** The counters of a report. */
  ghost predicate CountsExactly(obs: seq<Observation>, s: Summary) {
    && s.total == |obs|
    && s.successful == |Where(obs, (o: Observation) => o.success)|
    && s.failed == |Where(obs, (o: Observation) => !o.success)|
    && (forall status :: CountOf(s.statuses, status) == |Where(obs, (o: Observation) => o.status == Some(status))|)
    && (forall error :: CountOf(s.errors, error) == |Where(obs, (o: Observation) => o.error == Some(error))|)
  }

  /** The extremes and the two rates of a report. */
  ghost predicate MeasuresExactly(obs: seq<Observation>, elapsed: real, s: Summary)
    requires elapsed > 0.0 && obs != []
  {
    && IsReported(|obs| as real / elapsed, s.perSecond)
    && IsReported(Sum(LatenciesOf(obs)) / |obs| as real, s.average)
    && (exists least :: IsLeast(least, LatenciesOf(obs)) && IsReported(least, s.least))
    && (exists greatest :: IsGreatest(greatest, LatenciesOf(obs)) && IsReported(greatest, s.greatest))
  }

  lemma SummaryCounts(v: Values, obs: seq<Observation>, elapsed: real)
    requires Describes(v, obs) && elapsed > 0.0 && (v.total > 0 ==> v.latencies != [])
    ensures CountsExactly(obs, Summarize(v, elapsed))
  {
    hide Where, Percentile, Round3, Sum, Extremes, Reservoir, Latencies;
    var s := Summarize(v, elapsed);
    CountsAre(obs, 0, Label(""));
    forall status
      ensures CountOf(s.statuses, status) == |Where(obs, (o: Observation) => o.status == Some(status))|
    {
      CountsAre(obs, status, Label(""));
      assert CountOf(v.statuses, status) == WithStatus(obs, status);
    }
    forall error
      ensures CountOf(s.errors, error) == |Where(obs, (o: Observation) => o.error == Some(error))|
    {
      CountsAre(obs, 0, error);
      assert CountOf(v.errors, error) == WithError(obs, error);
    }
  }

  /**
    The report of any observations: exact counters and rates, the extremes, and
    the three percentiles by nearest rank among the sampled latencies, which are
    all latencies until there are more than ten thousand.
   */
  lemma SummaryIsExact(v: Values, obs: seq<Observation>, elapsed: real)
    requires Describes(v, obs) && elapsed > 0.0
    ensures v.total > 0 ==> v.latencies != []
    ensures CountsExactly(obs, Summarize(v, elapsed))
    ensures obs == [] ==> Summarize(v, elapsed)
                          == Summary(0, 0, 0, 0.0, 0.0, 0.0, 0.0, 0.0, 0.0, 0.0, map[], map[])
    ensures obs != [] ==>
              var s := Summarize(v, elapsed);
              && MeasuresExactly(obs, elapsed, s)
              && IsPercentile(v.latencies, 0.50, s.p50) && IsPercentile(v.latencies, 0.95, s.p95)
              && IsPercentile(v.latencies, 0.99, s.p99)
    ensures |obs| <= 10_000 ==> v.latencies == LatenciesOf(obs)
    ensures |obs| > 10_000 ==> |v.latencies| == 10_000 && multiset(v.latencies) <= multiset(LatenciesOf(obs))
  {
    hide CountsExactly, CountsStatuses, CountsErrors, Sum, Percentile, IsPercentile, IsReported, Round3, IsLeast,
      IsGreatest;
    Lengths(obs);
    LatenciesInOrder(obs);
    SummaryCounts(v, obs, elapsed);
    if obs != [] {
      ReportedIsRounded(|obs| as real / elapsed);
      ReportedIsRounded(v.latencySum / |obs| as real);
      ReportedIsRounded(v.minimum.value);
      ReportedIsRounded(v.maximum.value);
      PercentileIsNearestRank(v, 0.50);
      PercentileIsNearestRank(v, 0.95);
      PercentileIsNearestRank(v, 0.99);
    }
  }
}
