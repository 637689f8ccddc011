/** In-process metrics: running counters that agree with the history of
    recorded requests, and where a plain object as a counter table does not. */
module Metrics {
  import opened Strings
  import opened Percentile

  const LATENCY_BUCKETS_MS := [5, 10, 25, 50, 100, 250, 500, 1000, 2500, 5000]
  const SAMPLE_LIMIT := 1000

  datatype Record = Record(route: string, status: nat, latencyMs: int)

  /** A property of a counter object: a number, or text once `+ 1` has been
      applied to something inherited. */
  datatype Cell = Num(n: nat) | Text

  /** The names a plain object already answers to that are legal route names;
      the other ones all have capital letters. */
  const INHERITED := {"constructor", "__proto__"}

  /** `o[key] = (o[key] ?? 0) + 1`. Assigning text to `__proto__` does nothing. */
  function Increment(o: map<string, Cell>, key: string): map<string, Cell> {
    if key in o then (if o[key].Num? then o[key := Num(o[key].n + 1)] else o)
    else if key == "__proto__" then o
    else if key in INHERITED then o[key := Text]
    else o[key := Num(1)]
  }

  /** The counter object after a sequence of increments. */
  function Tally(keys: seq<string>): map<string, Cell> {
    if keys == [] then map[] else Increment(Tally(keys[..|keys| - 1]), keys[|keys| - 1])
  }

  function StatusClass(status: nat): string { Decimal(status / 100) + "xx" }

  function Routes(history: seq<Record>): seq<string> {
    seq(|history|, i requires 0 <= i < |history| => history[i].route)
  }

  function Classes(history: seq<Record>): seq<string> {
    seq(|history|, i requires 0 <= i < |history| => StatusClass(history[i].status))
  }

  function Latencies(history: seq<Record>): seq<int> {
    seq(|history|, i requires 0 <= i < |history| => history[i].latencyMs)
  }

  function AtMost(bound: int): int -> bool { (x: int) => x <= bound }

  function Sum(xs: seq<int>): int {
    if xs == [] then 0 else Sum(xs[..|xs| - 1]) + xs[|xs| - 1]
  }

  function LastOf<T>(s: seq<T>, n: nat): seq<T> {
    if |s| <= n then s else s[|s| - n..]
  }

  function Occurrences(keys: seq<string>, k: string): nat {
    if keys == [] then 0
    else Occurrences(keys[..|keys| - 1], k) + (if keys[|keys| - 1] == k then 1 else 0)
  }

  /** Every ordinary key counts its occurrences; inherited ones never hold a number. */
  lemma {:induction false} TallyCounts(keys: seq<string>, k: string)
    ensures k != "constructor" && k != "__proto__" ==>
              (k in Tally(keys) <==> k in keys) && (k in keys ==> Tally(keys)[k] == Num(Occurrences(keys, k)))
    ensures k == "constructor" ==> (k in Tally(keys) <==> k in keys) && (k in keys ==> Tally(keys)[k] == Text)
    ensures k == "__proto__" ==> k !in Tally(keys)
    ensures k !in keys ==> Occurrences(keys, k) == 0
  {
    if keys != [] {
      TallyCounts(keys[..|keys| - 1], k);
      assert keys == keys[..|keys| - 1] + [keys[|keys| - 1]];
    }
  }

  function ValueOf(c: Cell): nat { if c.Num? then c.n else 0 }

  /** The sum of an object's numbers. */
  ghost function SumCells(o: map<string, Cell>): nat {
    if o == map[] then 0
    else
      var k :| k in o;
      ValueOf(o[k]) + SumCells(o - {k})
  }

  lemma {:induction false} SumCellsAt(o: map<string, Cell>, k: string)
    requires k in o
    ensures SumCells(o) == ValueOf(o[k]) + SumCells(o - {k})
    decreases |o|
  {
    var j :| j in o && SumCells(o) == ValueOf(o[j]) + SumCells(o - {j});
    if j != k {
      SumCellsAt(o - {j}, k);
      SumCellsAt(o - {k}, j);
      assert o - {j} - {k} == o - {k} - {j};
    }
  }

  lemma SumCellsSet(o: map<string, Cell>, k: string, c: Cell)
    ensures SumCells(o[k := c]) == SumCells(o) - (if k in o then ValueOf(o[k]) else 0) + ValueOf(c)
  {
    SumCellsAt(o[k := c], k);
    assert o[k := c] - {k} == o - {k};
    if k in o {
      SumCellsAt(o, k);
    } else {
      assert o - {k} == o;
    }
  }

  function Ordinary(keys: seq<string>): nat {
    if keys == [] then 0
    else Ordinary(keys[..|keys| - 1]) + (if keys[|keys| - 1] in INHERITED then 0 else 1)
  }

  /** The table's numbers add up to the increments of ordinary keys. */
  lemma {:induction false} TallySum(keys: seq<string>)
    ensures SumCells(Tally(keys)) == Ordinary(keys)
  {
    if keys != [] {
      var init, k := keys[..|keys| - 1], keys[|keys| - 1];
      TallySum(init);
      TallyCounts(init, k);
      var o := Tally(init);
      if k in o {
        SumCellsSet(o, k, if o[k].Num? then Num(o[k].n + 1) else o[k]);
      } else if k != "__proto__" {
        SumCellsSet(o, k, if k in INHERITED then Text else Num(1));
      }
    }
  }

  lemma {:induction false} OrdinaryIsAll(keys: seq<string>)
    ensures Ordinary(keys) <= |keys|
    ensures Ordinary(keys) == |keys| <==> forall k :: k in keys ==> k !in INHERITED
  {
    if keys != [] {
      OrdinaryIsAll(keys[..|keys| - 1]);
      assert keys == keys[..|keys| - 1] + [keys[|keys| - 1]];
    }
  }

  /** Requests per route add up to the total exactly when no route is named like
      an inherited property; "constructor" and "__proto__" are legal route names. */
  lemma RoutesAddUp(history: seq<Record>)
    ensures SumCells(Tally(Routes(history))) == |history| <==>
              forall i :: 0 <= i < |history| ==> history[i].route != "constructor" && history[i].route != "__proto__"
  {
    TallySum(Routes(history));
    OrdinaryIsAll(Routes(history));
    assert forall i :: 0 <= i < |history| ==> Routes(history)[i] == history[i].route;
  }

  lemma OrdinaryClass(status: nat)
    ensures StatusClass(status) !in INHERITED
  {
    var s := StatusClass(status);
    var d := Decimal(status / 100);
    assert s[0] == d[0] && d[0] in d && '0' <= s[0] <= '9';
  }

  /** Requests per status class always add up to the total. */
  lemma ClassesAddUp(history: seq<Record>)
    ensures SumCells(Tally(Classes(history))) == |history|
  {
    TallySum(Classes(history));
    OrdinaryIsAll(Classes(history));
    forall k | k in Classes(history)
      ensures k !in INHERITED
    {
      var i :| 0 <= i < |history| && Classes(history)[i] == k;
      OrdinaryClass(history[i].status);
    }
  }

  /** Each bucket counts the latencies up to its bound. */
  function BucketsOf(bounds: seq<int>, latencies: seq<int>): map<int, nat> {
    map b | b in bounds :: CountIf(latencies, AtMost(b))
  }

  /** Buckets are cumulative: a larger bound counts at least as many. */
  lemma {:induction false} BucketsMonotone(latencies: seq<int>, a: int, b: int)
    requires a <= b
    ensures CountIf(latencies, AtMost(a)) <= CountIf(latencies, AtMost(b)) <= |latencies|
  {
    if latencies != [] {
      BucketsMonotone(latencies[1..], a, b);
    }
  }

  lemma {:induction false} CountAppend(xs: seq<int>, x: int, f: int -> bool)
    ensures CountIf(xs + [x], f) == CountIf(xs, f) + (if f(x) then 1 else 0)
  {
    if xs == [] {
      assert xs + [x] == [x];
    } else {
      CountAppend(xs[1..], x, f);
      assert (xs + [x])[1..] == xs[1..] + [x];
    }
  }

  lemma HistoryAppend(history: seq<Record>, r: Record)
    ensures Routes(history + [r]) == Routes(history) + [r.route]
    ensures Classes(history + [r]) == Classes(history) + [StatusClass(r.status)]
    ensures Latencies(history + [r]) == Latencies(history) + [r.latencyMs]
  {
  }

  lemma TallyAppend(keys: seq<string>, k: string)
    ensures Tally(keys + [k]) == Increment(Tally(keys), k)
  {
    assert (keys + [k])[..|keys|] == keys;
  }

  /** Push, then shift when the limit is passed, keeps the last samples. */
  lemma LastAppend<T>(s: seq<T>, x: T, n: nat)
    requires n > 0
    ensures var pushed := LastOf(s, n) + [x];
            LastOf(s + [x], n) == if |pushed| > n then pushed[1..] else pushed
  {
  }

  datatype RequestCounters = RequestCounters(total: nat, byStatusClass: map<string, Cell>, byRoute: map<string, Cell>)

  datatype LatencyHistogram = LatencyHistogram(count: nat, sum: int, buckets: map<int, nat>)

  /** The counters a history stands for. */
  function RequestsOf(history: seq<Record>): RequestCounters {
    RequestCounters(|history|, Tally(Classes(history)), Tally(Routes(history)))
  }

  function HistogramOf(history: seq<Record>): LatencyHistogram {
    LatencyHistogram(|history|, Sum(Latencies(history)), BucketsOf(LATENCY_BUCKETS_MS, Latencies(history)))
  }

  function SamplesOf(history: seq<Record>): seq<int> {
    LastOf(Latencies(history), SAMPLE_LIMIT)
  }

  predicate Distinct(bounds: seq<int>) {
    forall i, j :: 0 <= i < j < |bounds| ==> bounds[i] != bounds[j]
  }

  lemma BoundsAreDistinct()
    ensures Distinct(LATENCY_BUCKETS_MS)
  {
  }

  lemma RequestsStep(history: seq<Record>, r: Record)
    ensures var before := RequestsOf(history);
            RequestsOf(history + [r]) == RequestCounters(before.total + 1,
              Increment(before.byStatusClass, StatusClass(r.status)), Increment(before.byRoute, r.route))
  {
    HistoryAppend(history, r);
    TallyAppend(Classes(history), StatusClass(r.status));
    TallyAppend(Routes(history), r.route);
  }

  lemma SamplesStep(history: seq<Record>, r: Record)
    ensures Latencies(history + [r]) == Latencies(history) + [r.latencyMs]
    ensures Sum(Latencies(history + [r])) == Sum(Latencies(history)) + r.latencyMs
    ensures var pushed := SamplesOf(history) + [r.latencyMs];
            SamplesOf(history + [r]) == if |pushed| > SAMPLE_LIMIT then pushed[1..] else pushed
  {
    HistoryAppend(history, r);
    assert (Latencies(history) + [r.latencyMs])[..|history|] == Latencies(history);
    LastAppend(Latencies(history), r.latencyMs, SAMPLE_LIMIT);
  }

  /** One latency added to every bucket whose bound it does not pass. */
  method CountInBuckets(bounds: seq<int>, buckets: map<int, nat>, ghost latencies: seq<int>, latencyMs: int)
    returns (more: map<int, nat>)
    requires Distinct(bounds)
    requires buckets == BucketsOf(bounds, latencies)
    ensures more == BucketsOf(bounds, latencies + [latencyMs])
  {
    more := buckets;
    var i := 0;
    while i < |bounds|
      invariant 0 <= i <= |bounds|
      invariant more.Keys == buckets.Keys
      invariant forall j :: 0 <= j < |bounds| ==>
                  more[bounds[j]] == CountIf(if j < i then latencies + [latencyMs] else latencies, AtMost(bounds[j]))
    {
      var b := bounds[i];
      CountAppend(latencies, latencyMs, AtMost(b));
      if latencyMs <= b {
        more := more[b := more[b] + 1];
      }
      i := i + 1;
    }
  }

  /** How many recorded requests satisfy a condition. */
  function HowMany(history: seq<Record>, f: Record -> bool): nat {
    if history == [] then 0
    else HowMany(history[..|history| - 1], f) + (if f(history[|history| - 1]) then 1 else 0)
  }

  function StatusFrom(d: nat): Record -> bool { (r: Record) => 100 * d <= r.status < 100 * d + 100 }

  function ForRoute(route: string): Record -> bool { (r: Record) => r.route == route }

  function Within(bound: int): Record -> bool { (r: Record) => r.latencyMs <= bound }

  /** The cell that counts `n` requests; there is none for no requests. */
  ghost predicate Counts(o: map<string, Cell>, key: string, n: nat) {
    if n == 0 then key !in o else key in o && o[key] == Num(n)
  }

  lemma {:induction false} OneDigit(n: nat, d: nat)
    requires d < 10
    ensures Decimal(n) == [Digit(d)] <==> n == d
  {
    DecimalRoundTrip(n);
    DecimalRoundTrip(d);
  }

  lemma ClassKey(status: nat, d: nat)
    requires d < 10
    ensures StatusClass(status) == [Digit(d)] + "xx" <==> 100 * d <= status < 100 * d + 100
  {
    OneDigit(status / 100, d);
    var s := Decimal(status / 100);
    assert (s + "xx")[..|s + "xx"| - 2] == s && ([Digit(d)] + "xx")[..|[Digit(d)] + "xx"| - 2] == [Digit(d)];
  }

  lemma {:induction false} ClassOccurrences(history: seq<Record>, d: nat)
    requires d < 10
    ensures Occurrences(Classes(history), [Digit(d)] + "xx") == HowMany(history, StatusFrom(d))
  {
    hide StatusClass;
    if history != [] {
      var init, last := history[..|history| - 1], history[|history| - 1];
      ClassOccurrences(init, d);
      ClassKey(last.status, d);
      assert Classes(history)[..|history| - 1] == Classes(init);
    }
  }

  lemma {:induction false} RouteOccurrences(history: seq<Record>, route: string)
    ensures Occurrences(Routes(history), route) == HowMany(history, ForRoute(route))
  {
    if history != [] {
      RouteOccurrences(history[..|history| - 1], route);
      assert Routes(history)[..|history| - 1] == Routes(history[..|history| - 1]);
    }
  }

  lemma {:induction false} LatenciesWithin(history: seq<Record>, bound: int)
    ensures CountIf(Latencies(history), AtMost(bound)) == HowMany(history, Within(bound))
  {
    if history != [] {
      var init, last := history[..|history| - 1], history[|history| - 1];
      LatenciesWithin(init, bound);
      CountAppend(Latencies(init), last.latencyMs, AtMost(bound));
      assert Latencies(history) == Latencies(init) + [last.latencyMs];
    }
  }

  lemma {:induction false} OccursWhenIn(keys: seq<string>, k: string)
    ensures Occurrences(keys, k) == 0 <==> k !in keys
  {
    if keys != [] {
      OccursWhenIn(keys[..|keys| - 1], k);
      assert keys == keys[..|keys| - 1] + [keys[|keys| - 1]];
    }
  }

  /** The cell of the class of statuses 100 d to 100 d + 99 counts exactly the
      requests with such a status. */
  lemma ClassCounts(history: seq<Record>, d: nat)
    requires d < 10
    ensures Counts(RequestsOf(history).byStatusClass, [Digit(d)] + "xx", HowMany(history, StatusFrom(d)))
  {
    var key := [Digit(d)] + "xx";
    ClassOccurrences(history, d);
    OccursWhenIn(Classes(history), key);
    assert |key| == 3 && |"constructor"| == 11 && |"__proto__"| == 9;
    TallyCounts(Classes(history), key);
  }

  /** The cell of an ordinary route counts exactly its requests. */
  lemma RouteCounts(history: seq<Record>, route: string)
    requires route != "constructor" && route != "__proto__"
    ensures Counts(RequestsOf(history).byRoute, route, HowMany(history, ForRoute(route)))
  {
    RouteOccurrences(history, route);
    OccursWhenIn(Routes(history), route);
    TallyCounts(Routes(history), route);
  }

  /** The ten buckets, and what each counts. */
  lemma BucketCounts(history: seq<Record>, b: int)
    ensures b in HistogramOf(history).buckets <==>
              || b == 5 || b == 10 || b == 25 || b == 50 || b == 100
              || b == 250 || b == 500 || b == 1000 || b == 2500 || b == 5000
    ensures b in HistogramOf(history).buckets ==>
              HistogramOf(history).buckets[b] == HowMany(history, Within(b))
  {
    LatenciesWithin(history, b);
  }

  lemma TotalsMean(history: seq<Record>)
    ensures RequestsOf(history).total == HistogramOf(history).count == |history|
  {
  }

  lemma CountersMean(history: seq<Record>)
    ensures forall d :: 0 <= d < 10 ==>
              Counts(RequestsOf(history).byStatusClass, [Digit(d)] + "xx", HowMany(history, StatusFrom(d)))
    ensures forall route :: route != "constructor" && route != "__proto__" ==>
              Counts(RequestsOf(history).byRoute, route, HowMany(history, ForRoute(route)))
    ensures forall b :: b in HistogramOf(history).buckets <==>
              || b == 5 || b == 10 || b == 25 || b == 50 || b == 100
              || b == 250 || b == 500 || b == 1000 || b == 2500 || b == 5000
    ensures forall b :: b in HistogramOf(history).buckets ==>
              HistogramOf(history).buckets[b] == HowMany(history, Within(b))
  {
    hide Counts, RequestsOf, HistogramOf;
    forall d | 0 <= d < 10
      ensures Counts(RequestsOf(history).byStatusClass, [Digit(d)] + "xx", HowMany(history, StatusFrom(d)))
    {
      ClassCounts(history, d);
    }
    forall route | route != "constructor" && route != "__proto__"
      ensures Counts(RequestsOf(history).byRoute, route, HowMany(history, ForRoute(route)))
    {
      RouteCounts(history, route);
    }
    forall b {
      BucketCounts(history, b);
    }
  }

  lemma SamplesMean(history: seq<Record>)
    ensures var samples := SamplesOf(history);
      && |samples| == (if |history| < 1000 then |history| else 1000)
      && forall i :: 0 <= i < |samples| ==> samples[i] == history[|history| - |samples| + i].latencyMs
  {
  }

  datatype Report = Report(requests: RequestCounters, latency: LatencyHistogram,
                           p50: Option<int>, p95: Option<int>, p99: Option<int>,
                           circuitBreakers: map<string, bool>)

  class Metrics {
    var requests: RequestCounters
    var latency: LatencyHistogram
    var latencySamples: seq<int>
    var circuitBreakers: map<string, bool>
    ghost var history: seq<Record>      // recorded since the last reset

    /** Every counter is what the history says it is. */
    ghost predicate Valid()
      reads this
    {
      && requests == RequestsOf(history)
      && latency == HistogramOf(history)
      && latencySamples == SamplesOf(history)
    }

    constructor ()
      ensures Valid() && history == [] && circuitBreakers == map[]
    {
      requests := RequestCounters(0, map[], map[]);
      latency := LatencyHistogram(0, 0, BucketsOf(LATENCY_BUCKETS_MS, []));
      latencySamples, circuitBreakers, history := [], map[], [];
    }

    /** `recordRequest`. */
    method RecordRequest(route: string, statusCode: nat, latencyMs: int)
      requires Valid()
      modifies this
      ensures Valid() && history == old(history) + [Record(route, statusCode, latencyMs)]
      ensures circuitBreakers == old(circuitBreakers)
      ensures requests.total == old(requests.total) + 1
      ensures latency.count == old(latency.count) + 1 && latency.sum == old(latency.sum) + latencyMs
    {
      var r := Record(route, statusCode, latencyMs);
      RequestsStep(history, r);
      SamplesStep(history, r);
      BoundsAreDistinct();
      requests := RequestCounters(requests.total + 1, Increment(requests.byStatusClass, StatusClass(statusCode)),
                                  Increment(requests.byRoute, route));
      var buckets := CountInBuckets(LATENCY_BUCKETS_MS, latency.buckets, Latencies(history), latencyMs);
      latency := LatencyHistogram(latency.count + 1, latency.sum + latencyMs, buckets);
      latencySamples := latencySamples + [latencyMs];
      if |latencySamples| > SAMPLE_LIMIT {
        latencySamples := latencySamples[1..];
      }
      history := history + [r];
    }

    method SetCircuitBreakerState(upstream: string, isOpen: bool)
      requires Valid()
      modifies this`circuitBreakers
      ensures Valid() && circuitBreakers == old(circuitBreakers)[upstream := isOpen]
    {
      circuitBreakers := circuitBreakers[upstream := isOpen];
    }

    /** `getMetrics`: counters of the whole history, percentiles of its last
        samples, and nothing changed. */
    method GetMetrics() returns (r: Report)
      requires Valid()
      ensures r.requests.total == r.latency.count == |history|
      ensures r.requests == RequestsOf(history) && r.latency == HistogramOf(history)
      ensures r.circuitBreakers == circuitBreakers
      ensures forall d :: 0 <= d < 10 ==>
                Counts(r.requests.byStatusClass, [Digit(d)] + "xx", HowMany(history, StatusFrom(d)))
      ensures forall route :: route != "constructor" && route != "__proto__" ==>
                Counts(r.requests.byRoute, route, HowMany(history, ForRoute(route)))
      ensures forall b :: b in r.latency.buckets <==>
                || b == 5 || b == 10 || b == 25 || b == 50 || b == 100
                || b == 250 || b == 500 || b == 1000 || b == 2500 || b == 5000
      ensures forall b :: b in r.latency.buckets ==> r.latency.buckets[b] == HowMany(history, Within(b))
      ensures |latencySamples| == if |history| < 1000 then |history| else 1000
      ensures forall i :: 0 <= i < |latencySamples| ==>
                latencySamples[i] == history[|history| - |latencySamples| + i].latencyMs
      ensures history == [] <==> r.p50.None?
      ensures history == [] <==> r.p95.None?
      ensures history == [] <==> r.p99.None?
      ensures history != [] ==>
                && r.p50.value <= r.p95.value <= r.p99.value
                && IsNearestRank(latencySamples, 50, r.p50.value)
                && IsNearestRank(latencySamples, 95, r.p95.value)
                && IsNearestRank(latencySamples, 99, r.p99.value)
    {
      hide RequestsOf, HistogramOf, SamplesOf, Counts, IsNearestRank, PercentileOf;
      r := Report(requests, latency, PercentileOf(latencySamples, 50), PercentileOf(latencySamples, 95),
                  PercentileOf(latencySamples, 99), circuitBreakers);
      TotalsMean(history);
      CountersMean(history);
      SamplesMean(history);
      if latencySamples != [] {
        PercentilesMonotone(latencySamples, 50, 95);
        PercentilesMonotone(latencySamples, 95, 99);
        NearestRank(latencySamples, 50);
        NearestRank(latencySamples, 95);
        NearestRank(latencySamples, 99);
      }
    }

    /** `resetMetrics`: the breaker states stay. */
    method ResetMetrics()
      modifies this
      ensures Valid() && history == [] && circuitBreakers == old(circuitBreakers)
    {
      requests := RequestCounters(0, map[], map[]);
      latency := LatencyHistogram(0, 0, BucketsOf(LATENCY_BUCKETS_MS, []));
      latencySamples, history := [], [];
    }
  }
}
