/** The breaker registry and the catch-all proxy handler. A breaker either
    rejects without calling or calls the upstream once; when it opens is not
    part of this model. */
module ProxyHandler {
  import opened Strings
  import opened Models
  import opened RetryPolicy
  import M = Metrics
  import RouteMatcher

  /** Where a call went and what it asked for. */
  datatype Target = Target(host: string, port: nat, asked: string)

  function UpstreamKey(host: string, port: nat): string {
    host + ":" + Decimal(port)
  }

  /** Different upstreams have different keys, even if a host contains ':'. */
  lemma UpstreamKeyInjective(h1: string, p1: nat, h2: string, p2: nat)
    ensures UpstreamKey(h1, p1) == UpstreamKey(h2, p2) <==> h1 == h2 && p1 == p2
  {
    if UpstreamKey(h1, p1) == UpstreamKey(h2, p2) {
      assert h1 + [':'] + Decimal(p1) == h2 + [':'] + Decimal(p2);
      LastSeparator(h1, Decimal(p1), h2, Decimal(p2), ':');
      DecimalRoundTrip(p1);
      DecimalRoundTrip(p2);
    }
  }

  /** What the upstream call makes of the attempts: the outcome of the one that
      decides. */
  ghost predicate Answers(attempts: nat -> Attempt, retries: nat, out: Outcome<int>) {
    exists k: nat :: Decides(Outcomes(attempts), IsRetryableStatus, retries, k) && out == attempts(k).outcome
  }

  /** A breaker and the targets of the calls that went through it. */
  class Breaker {
    const name: string
    ghost var targets: seq<Target>

    constructor (name: string)
      ensures this.name == name && targets == []
    {
      this.name := name;
      targets := [];
    }
  }

  class Registry {
    var breakers: map<string, Breaker>

    /** Each key has its own breaker, and all a breaker ever called is the
        upstream of its key. */
    ghost predicate Valid()
      reads this, breakers.Values
    {
      && (forall k :: k in breakers ==> breakers[k].name == k)
      && (forall k, i :: k in breakers && 0 <= i < |breakers[k].targets| ==>
            UpstreamKey(breakers[k].targets[i].host, breakers[k].targets[i].port) == k)
    }

    constructor ()
      ensures Valid() && breakers == map[]
    {
      breakers := map[];
    }

    /** `getBreaker`: the breaker of the upstream, made on first use and kept. */
    method GetBreaker(host: string, port: nat) returns (b: Breaker)
      requires Valid()
      modifies this
      ensures Valid() && b.name == UpstreamKey(host, port)
      ensures b.name in breakers && breakers[b.name] == b
      ensures forall k :: k in old(breakers) ==> k in breakers && breakers[k] == old(breakers[k])
      ensures breakers.Keys == old(breakers.Keys) + {b.name}
      ensures b.name !in old(breakers) ==> fresh(b) && b.targets == []
    {
      var key := UpstreamKey(host, port);
      if key !in breakers {
        var made := new Breaker(key);
        breakers := breakers[key := made];
      }
      b := breakers[key];
    }

    ghost function TargetsOf(key: string): seq<Target>
      reads this, breakers.Values
    {
      if key in breakers then breakers[key].targets else []
    }

    /** The handler's `getBreaker` and `fire` with the effective route. */
    method Forward(route: Route, u: Upstream, asked: string, open: bool, attempts: nat -> Attempt)
      returns (out: Outcome<int>)
      requires Valid() && (!u.canary ==> u.host == route.upstreamHost && u.port == route.upstreamPort)
      modifies this, breakers.Values
      ensures Valid()
      ensures breakers.Keys == old(breakers.Keys) + {UpstreamKey(u.host, u.port)}
      ensures forall k :: k in old(breakers) ==> k in breakers && breakers[k] == old(breakers[k])
      ensures breakers[UpstreamKey(u.host, u.port)].targets
                == old(TargetsOf(UpstreamKey(u.host, u.port)))
                     + (if open then [] else [Target(u.host, u.port, asked)])
      ensures open ==> out == Rejected(BREAKER_OPEN)
      ensures !open && route.retries >= 0 ==> Answers(attempts, route.retries, out)
      ensures fresh(breakers.Values - old(breakers.Values))
    {
      var breaker := GetBreaker(u.host, u.port);
      out := Fire(breaker, EffectiveRoute(route, u), asked, open, attempts);
    }

    /** Two upstreams share a breaker only if they are the same. */
    lemma NeverShared(h1: string, p1: nat, h2: string, p2: nat)
      requires Valid()
      requires UpstreamKey(h1, p1) in breakers && UpstreamKey(h2, p2) in breakers
      ensures breakers[UpstreamKey(h1, p1)] == breakers[UpstreamKey(h2, p2)] <==> h1 == h2 && p1 == p2
    {
      UpstreamKeyInjective(h1, p1, h2, p2);
    }

    /** Everything fired through the breaker of (host, port) went to it. */
    lemma OnlyItsUpstream(host: string, port: nat)
      requires Valid() && UpstreamKey(host, port) in breakers
      ensures forall t :: t in breakers[UpstreamKey(host, port)].targets ==> t.host == host && t.port == port
    {
      var b := breakers[UpstreamKey(host, port)];
      forall t | t in b.targets
        ensures t.host == host && t.port == port
      {
        var i :| 0 <= i < |b.targets| && b.targets[i] == t;
        UpstreamKeyInjective(t.host, t.port, host, port);
      }
    }
  }

  datatype Upstream = Upstream(host: string, port: nat, canary: bool)

  /** `selectUpstream`, with the roll in [0, 100) it draws. */
  function SelectUpstream(route: Route, roll: real): Upstream {
    var weight := if route.canaryWeight.Some? then route.canaryWeight.value else 0;
    if route.canaryHost.Some? && route.canaryPort.Some? && weight > 0 && roll < weight as real
    then Upstream(route.canaryHost.value, route.canaryPort.value, true)
    else Upstream(route.upstreamHost, route.upstreamPort, false)
  }

  /** The route with the chosen upstream in it. */
  function EffectiveRoute(route: Route, u: Upstream): Route {
    if u.canary then route.(upstreamHost := u.host, upstreamPort := u.port) else route
  }

  /** Path and query as the upstream is asked for them. */
  function ForwardedUrl(url: string, upstreamPath: string): string {
    var q := RouteMatcher.QueryIndex(url);
    var queryString := if q == |url| then "" else url[q + 1..];
    if queryString != "" then upstreamPath + "?" + queryString else upstreamPath
  }

  /** Without strip_path the upstream sees the client's url, except that a bare
      trailing '?' is dropped. */
  lemma ForwardedUnchanged(url: string, routes: seq<Route>)
    requires Matched(url, routes).Some? && !Matched(url, routes).value.route.stripPath
    ensures var sent := ForwardedUrl(url, Matched(url, routes).value.upstreamPath);
            if RouteMatcher.QueryIndex(url) == |url| - 1 then sent + "?" == url else sent == url
  {
    hide RouteMatcher.QueryIndex, ForwardedUrl, RouteMatcher.Covers;
    RouteMatcher.UpstreamPath(url[..RouteMatcher.QueryIndex(url)], routes);
    Rejoined(url);
  }

  /** The upstream path is followed by the client's query, from its '?' on,
      unless nothing follows that. */
  lemma QueryKept(url: string, upstreamPath: string)
    ensures var q := RouteMatcher.QueryIndex(url);
            ForwardedUrl(url, upstreamPath) == upstreamPath + (if q == |url| - 1 then "" else url[q..])
  {
    hide RouteMatcher.QueryIndex;
    var q := RouteMatcher.QueryIndex(url);
    if q == |url| {
      assert upstreamPath + url[q..] == upstreamPath;
    } else {
      var rest := url[q + 1..];
      TailAt(url, q);
      assert rest == "" <==> q == |url| - 1;
      assert ForwardedUrl(url, upstreamPath) == if rest != "" then upstreamPath + "?" + rest else upstreamPath;
      Regroup(upstreamPath, "?", rest);
    }
  }

  lemma TailAt(s: string, q: nat)
    requires q < |s| && s[q] == '?'
    ensures s[q..] == "?" + s[q + 1..]
  {
  }

  lemma Regroup(a: string, b: string, c: string)
    ensures a + b + c == a + (b + c) && a + "" == a
  {
  }

  lemma Rejoined(url: string)
    ensures var q := RouteMatcher.QueryIndex(url); var sent := ForwardedUrl(url, url[..q]);
            if q == |url| - 1 then sent + "?" == url else sent == url
  {
    hide RouteMatcher.QueryIndex, ForwardedUrl;
    var q := RouteMatcher.QueryIndex(url);
    QueryKept(url, url[..q]);
    assert url == url[..q] + url[q..];
    if q < |url| {
      CutAt(url, q);
    }
  }

  lemma CutAt(s: string, q: nat)
    requires q < |s| && s[q] == '?'
    ensures s == s[..q] + "?" + s[q + 1..]
    ensures s[q + 1..] == "" <==> q == |s| - 1
    ensures q == |s| - 1 ==> s == s[..q] + "?"
  {
  }

  /** What the client gets: the upstream's status, or the gateway's own. */
  datatype ProxyReply = NoRoute | Forwarded(status: nat) | Unavailable | TimedOut | BadGateway

  predicate IsBreakerOpen(err: Failure) { err.Error? && Includes(err.message, "Breaker is open") }

  predicate IsTimeout(err: Failure) {
    err.Error? && (err.name == "TimeoutError" || err.name == "AbortError"
      || Includes(err.message, "UND_ERR_HEADERS_TIMEOUT") || Includes(err.message, "UND_ERR_BODY_TIMEOUT"))
  }

  /** The statuses `reply.status` takes; it throws on any other. */
  predicate Sendable(status: int) { 100 <= status <= 599 }

  function ReplyTo(o: Outcome<int>): ProxyReply {
    match o
    case Resolved(status) => if Sendable(status) then Forwarded(status) else BadGateway
    case Rejected(err) => if IsBreakerOpen(err) then Unavailable else if IsTimeout(err) then TimedOut else BadGateway
  }

  /** The status recorded for an error: a timeout counts as 502. */
  function ErrorStatus(err: Failure): nat {
    if IsBreakerOpen(err) then 503 else 502
  }

  /** What is recorded for a request: the upstream's status or that of the error.
      A status the reply refuses is recorded before it throws, and the error
      after that. */
  function RecordsOf(route: string, o: Outcome<int>, ms: int, lateMs: int): seq<M.Record> {
    match o
    case Rejected(err) => [M.Record(route, ErrorStatus(err), ms)]
    case Resolved(status) =>
      var first := M.Record(route, if status >= 0 then status else 0, ms);
      if Sendable(status) then [first] else [first, M.Record(route, 502, lateMs)]
  }

  /** The status line of a reply. */
  function StatusOf(reply: ProxyReply): nat {
    match reply
    case NoRoute => 404
    case Forwarded(status) => status
    case Unavailable => 503
    case TimedOut => 504
    case BadGateway => 502
  }

  /** A request is recorded once and with the client's status, exactly when it
      is not answered as a timeout and the upstream's status can be sent. */
  lemma RecordedStatus(route: string, o: Outcome<int>, ms: int, lateMs: int)
    ensures RecordsOf(route, o, ms, lateMs) == [M.Record(route, StatusOf(ReplyTo(o)), ms)] <==>
              ReplyTo(o) != TimedOut && (o.Resolved? ==> Sendable(o.result))
    ensures ReplyTo(o) == TimedOut <==> o.Rejected? && IsTimeout(o.err) && !IsBreakerOpen(o.err)
  {
    hide Includes;
    assert |RecordsOf(route, o, ms, lateMs)| == if o.Resolved? && !Sendable(o.result) then 2 else 1;
  }

  /** What each outcome is answered with: statuses from 100 to 599 as they are;
      503 for a message of an open breaker; 504 for two names and two messages of
      a timeout; 502 for everything else. */
  ghost predicate RightReply(o: Outcome<int>, reply: ProxyReply) {
    match o
    case Resolved(status) =>
      if 100 <= status <= 599 then reply == Forwarded(status) else reply == BadGateway
    case Rejected(NotAnError) => reply == BadGateway
    case Rejected(Error(name, _, message)) =>
      if Includes(message, "Breaker is open") then reply == Unavailable
      else if name == "TimeoutError" || name == "AbortError"
              || Includes(message, "UND_ERR_HEADERS_TIMEOUT") || Includes(message, "UND_ERR_BODY_TIMEOUT")
      then reply == TimedOut
      else reply == BadGateway
  }

  /** And what is recorded for it. */
  ghost predicate RightRecords(route: string, o: Outcome<int>, ms: int, lateMs: int, records: seq<M.Record>) {
    match o
    case Resolved(status) =>
      && |records| == (if 100 <= status <= 599 then 1 else 2)
      && records[0].route == route && records[0].latencyMs == ms && (status >= 0 ==> records[0].status == status)
      && (|records| == 2 ==> records[1] == M.Record(route, 502, lateMs))
    case Rejected(NotAnError) => records == [M.Record(route, 502, ms)]
    case Rejected(Error(_, _, message)) =>
      records == [M.Record(route, if Includes(message, "Breaker is open") then 503 else 502, ms)]
  }

  lemma RepliesAreRight(route: string, o: Outcome<int>, ms: int, lateMs: int)
    ensures RightReply(o, ReplyTo(o)) && RightRecords(route, o, ms, lateMs, RecordsOf(route, o, ms, lateMs))
  {
    hide Includes;
  }

  const BREAKER_OPEN := Error("Error", "EOPENBREAKER", "Breaker is open")

  class Handler {
    const registry: Registry
    const metrics: M.Metrics

    constructor (registry: Registry, metrics: M.Metrics)
      ensures this.registry == registry && this.metrics == metrics
    {
      this.registry := registry;
      this.metrics := metrics;
    }

    /** One proxied request. `open` says whether the breaker rejects it; the
        upstream behaves as `attempts`; `end` and `late` are clock readings. A
        matched request is recorded and reaches, if at all, the upstream it was
        meant for. */
    method Handle(url: string, routes: seq<Route>, canaryReleases: bool, roll: real,
                  open: bool, attempts: nat -> Attempt, start: int, end: int, late: int)
      returns (reply: ProxyReply, ghost outcome: Outcome<int>)
      requires registry.Valid() && metrics.Valid()
      modifies registry, registry.breakers.Values, metrics
      ensures registry.Valid() && metrics.Valid()
      ensures var m := Matched(url, routes);
        && (reply.NoRoute? <==> m.None?)
        && (m.None? ==> registry.breakers == old(registry.breakers) && metrics.history == old(metrics.history))
        && (m.Some? ==>
              var u := Chosen(m.value.route, canaryReleases, roll);
              && reply == ReplyTo(outcome) && RightReply(outcome, reply)
              && RightUpstream(m.value.route, canaryReleases, roll, u)
              && (open ==> outcome == Rejected(BREAKER_OPEN) && reply == Unavailable)
              && (!open && m.value.route.retries >= 0 ==> Answers(attempts, m.value.route.retries, outcome))
              && |metrics.history| >= |old(metrics.history)|
              && metrics.history
                   == old(metrics.history) + RecordsOf(m.value.route.name, outcome, end - start, late - start)
              && RightRecords(m.value.route.name, outcome, end - start, late - start,
                              metrics.history[|old(metrics.history)|..])
              && registry.breakers.Keys == old(registry.breakers.Keys) + {UpstreamKey(u.host, u.port)}
              && registry.breakers[UpstreamKey(u.host, u.port)].targets
                   == old(registry.TargetsOf(UpstreamKey(u.host, u.port)))
                      + (if open then []
                         else [Target(u.host, u.port, ForwardedUrl(url, m.value.upstreamPath))]))
      ensures forall k :: k in old(registry.breakers) ==>
                k in registry.breakers && registry.breakers[k] == old(registry.breakers[k])
    {
      hide M.RequestsOf, M.HistogramOf, M.SamplesOf, Matched, Decimal, Includes;
      hide RecordsOf, RightRecords, RightReply, ForwardedUrl;
      var matched := Matched(url, routes);
      outcome := Rejected(BREAKER_OPEN);
      if matched.None? {
        return NoRoute, outcome;
      }
      var route := matched.value.route;
      var u := Chosen(route, canaryReleases, roll);
      ChosenMeans(route, canaryReleases, roll);
      var out := registry.Forward(route, u, ForwardedUrl(url, matched.value.upstreamPath), open, attempts);
      outcome, reply := out, ReplyTo(out);
      OpenBreakerReply();
      RepliesAreRight(route.name, out, end - start, late - start);
      RecordOutcome(route.name, out, end - start, late - start);
    }

    /** The recording in the handler's two branches. */
    method RecordOutcome(route: string, out: Outcome<int>, ms: int, lateMs: int)
      requires metrics.Valid()
      modifies metrics
      ensures metrics.Valid() && metrics.history == old(metrics.history) + RecordsOf(route, out, ms, lateMs)
    {
      hide M.RequestsOf, M.HistogramOf, M.SamplesOf, Includes;
      if out.Resolved? {
        metrics.RecordRequest(route, if out.result >= 0 then out.result else 0, ms);
        if !Sendable(out.result) {
          metrics.RecordRequest(route, 502, lateMs);
        }
      } else {
        metrics.RecordRequest(route, ErrorStatus(out.err), ms);
      }
    }
  }

  /** The match of the url's path, cut at its first '?'. */
  function Matched(url: string, routes: seq<Route>): Option<RouteMatcher.MatchResult> {
    RouteMatcher.MatchRoute(url[..RouteMatcher.QueryIndex(url)], routes)
  }

  /** The hooks that run before the handler match the same route. */
  lemma MatchedAsByHooks(url: string, routes: seq<Route>)
    ensures Matched(url, routes) == RouteMatcher.MatchRoute(RouteMatcher.PathOf(url), routes)
  {
    RouteMatcher.CallersAgreeOnPath(url);
  }

  function Chosen(route: Route, canaryReleases: bool, roll: real): Upstream {
    if canaryReleases then SelectUpstream(route, roll) else Upstream(route.upstreamHost, route.upstreamPort, false)
  }

  /** The canary is configured with a positive weight. */
  predicate HasCanary(route: Route) {
    route.canaryHost.Some? && route.canaryPort.Some? && route.canaryWeight.Some? && route.canaryWeight.value > 0
  }

  /** The upstream is the canary exactly if canary releases are on, the route has
      one and the roll falls below its weight; else it is the route's own. */
  ghost predicate RightUpstream(route: Route, canaryReleases: bool, roll: real, u: Upstream) {
    if canaryReleases && HasCanary(route) && roll < route.canaryWeight.value as real
    then u.canary && Some(u.host) == route.canaryHost && Some(u.port) == route.canaryPort
    else !u.canary && u.host == route.upstreamHost && u.port == route.upstreamPort
  }

  lemma ChosenMeans(route: Route, canaryReleases: bool, roll: real)
    ensures RightUpstream(route, canaryReleases, roll, Chosen(route, canaryReleases, roll))
  {
  }

  /** An open breaker answers 503 and is recorded as one. */
  lemma OpenBreakerReply()
    ensures ReplyTo(Rejected(BREAKER_OPEN)) == Unavailable && ErrorStatus(BREAKER_OPEN) == 503
  {
    assert "Breaker is open" <= BREAKER_OPEN.message;
  }

  /** `breaker.fire`: rejected at once, or one upstream call to the route's host. */
  method Fire(breaker: Breaker, route: Route, asked: string, open: bool, attempts: nat -> Attempt)
    returns (out: Outcome<int>)
    modifies breaker
    ensures open ==> out == Rejected(BREAKER_OPEN) && breaker.targets == old(breaker.targets)
    ensures !open ==> breaker.targets == old(breaker.targets) + [Target(route.upstreamHost, route.upstreamPort, asked)]
    ensures !open && route.retries >= 0 ==> Answers(attempts, route.retries, out)
  {
    if open {
      return Rejected(BREAKER_OPEN);
    }
    var calls, ms;
    out, calls, ms := UpstreamRequest(route.retries, route.requestTimeoutMs, attempts);
    assert route.retries >= 0 ==> Decides(Outcomes(attempts), IsRetryableStatus, route.retries, calls - 1);
    breaker.targets := breaker.targets + [Target(route.upstreamHost, route.upstreamPort, asked)];
  }
}
