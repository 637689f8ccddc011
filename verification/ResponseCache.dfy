/** The response cache: lookup and store hooks over Redis keys with a time to
    live, any number of requests in flight, one clock. Each request meets the
    configuration that is loaded when it arrives. A key is gone from the instant
    it expires. */
module ResponseCache {
  import opened Strings
  import opened Models
  import opened CacheControl
  import opened CacheKey
  import RouteMatcher

  datatype Request = Request(verb: string, url: string, cacheControl: Option<string>, authorization: Option<string>)

  /** A reply leaves as bytes or as a stream; only bytes are stored. */
  datatype Payload = Bytes(content: string) | Stream

  datatype Response = Response(status: int, headers: map<string, HeaderValue>, payload: Payload)

  datatype CachedResponse = CachedResponse(status: int, headers: map<string, string>, body: string, cachedAt: int)

  datatype Entry = Entry(response: CachedResponse, expireAt: int)

  datatype Config = Config(cacheEnabled: bool, routes: seq<Route>, policies: map<string, Policy>, defaultTtl: int)

  datatype Plan = Plan(key: string, ttl: int)

  const CACHEABLE_HEADERS :=
    {"content-type", "content-encoding", "etag", "last-modified", "cache-control", "x-request-id"}

  predicate IsCacheableMethod(verb: string) { verb == "GET" || verb == "HEAD" }

  predicate HasBypassHeaders(req: Request) {
    || (req.cacheControl.Some? &&
        (Includes(req.cacheControl.value, "no-cache") || Includes(req.cacheControl.value, "no-store")))
    || (req.authorization.Some? && req.authorization.value != "")
  }

  /** The client asks not to be served from a cache. */
  predicate AsksBypass(req: Request) {
    req.cacheControl.Some?
    && (Names(req.cacheControl.value, "no-cache") || Names(req.cacheControl.value, "no-store"))
  }

  /** The client is heard if it spells its directive in lower case. Without
      credentials, it is not heard exactly if its line has neither name in lower
      case anywhere: "No-Cache" is one such line. */
  lemma BypassIsHeard(req: Request)
    ensures (req.cacheControl.Some?
             && (Spells(req.cacheControl.value, "no-cache") || Spells(req.cacheControl.value, "no-store"))) ==>
              HasBypassHeaders(req)
    ensures AsksBypass(req) && req.authorization.None? ==>
              (!HasBypassHeaders(req) <==>
                 !Includes(req.cacheControl.value, "no-cache") && !Includes(req.cacheControl.value, "no-store"))
    ensures req.cacheControl == Some("No-Cache") && req.authorization.None? ==>
              AsksBypass(req) && !HasBypassHeaders(req)
  {
    hide Includes, Spells, Names;
    if req.cacheControl.Some? {
      if Spells(req.cacheControl.value, "no-cache") {
        SpelledIsFound(req.cacheControl.value, "no-cache");
      }
      if Spells(req.cacheControl.value, "no-store") {
        SpelledIsFound(req.cacheControl.value, "no-store");
      }
    }
    OtherSpellings();
  }

  /** The key and lifetime the hooks use for a request, if it is cacheable. */
  function PlanFor(cfg: Config, req: Request): Option<Plan> {
    var path := RouteMatcher.PathOf(req.url);
    if !cfg.cacheEnabled || !IsCacheableMethod(req.verb) || HasBypassHeaders(req)
       || RouteMatcher.InternalPath(path) then None
    else
      match RouteMatcher.MatchRoute(path, cfg.routes)
      case None => None
      case Some(m) =>
        var ttl := if m.route.id in cfg.policies && cfg.policies[m.route.id].cacheTtlSeconds.Some?
                   then cfg.policies[m.route.id].cacheTtlSeconds.value else cfg.defaultTtl;
        if ttl <= 0 then None
        else Some(Plan(BuildCacheKey(m.route.name, req.verb, req.url), ttl))
  }

  /** The request says nothing that keeps it from the cache: no Authorization,
      and neither name in its Cache-Control. */
  ghost predicate Uncommitted(req: Request) {
    && (req.authorization.None? || req.authorization == Some(""))
    && (req.cacheControl.Some? ==>
          !Includes(req.cacheControl.value, "no-cache") && !Includes(req.cacheControl.value, "no-store"))
  }

  /** Which requests are planned, and how: GET or HEAD without credentials, for a
      route, with a positive lifetime, which is the policy's or else the default. */
  lemma PlannedWhen(cfg: Config, req: Request)
    ensures var path := RouteMatcher.PathOf(req.url);
            var m := RouteMatcher.MatchRoute(path, cfg.routes);
      && (PlanFor(cfg, req).Some? <==>
            && cfg.cacheEnabled && (req.verb == "GET" || req.verb == "HEAD") && Uncommitted(req)
            && path != "/healthz" && path != "/readyz" && path != "/metrics"
            && !("/docs" <= path) && !("/admin" <= path)
            && m.Some? && LifetimeOf(cfg, m.value.route.id) > 0)
      && (PlanFor(cfg, req).Some? ==>
            && PlanFor(cfg, req).value.ttl == LifetimeOf(cfg, m.value.route.id)
            && PlanFor(cfg, req).value.key == BuildCacheKey(m.value.route.name, req.verb, req.url))
  {
    hide Includes, RouteMatcher.PathOf, RouteMatcher.MatchRoute, BuildCacheKey;
  }

  /** The lifetime in force for a route. */
  ghost function LifetimeOf(cfg: Config, routeId: string): (ttl: int)
    ensures routeId in cfg.policies && cfg.policies[routeId].cacheTtlSeconds.Some? ==>
              Some(ttl) == cfg.policies[routeId].cacheTtlSeconds
    ensures routeId !in cfg.policies || cfg.policies[routeId].cacheTtlSeconds.None? ==> ttl == cfg.defaultTtl
  {
    if routeId in cfg.policies && cfg.policies[routeId].cacheTtlSeconds.Some?
    then cfg.policies[routeId].cacheTtlSeconds.value
    else cfg.defaultTtl
  }

  lemma PlanIsPositive(cfg: Config, req: Request)
    ensures PlanFor(cfg, req).Some? ==> PlanFor(cfg, req).value.ttl > 0
  {
  }

  /** GET of a key; an unreachable Redis is a miss. */
  function Visible(store: map<string, Entry>, key: string, now: int, redisUp: bool): Option<CachedResponse> {
    if redisUp && key in store && now < store[key].expireAt then Some(store[key].response) else None
  }

  /** The upstream forbids storing: some line of its Cache-Control says so. */
  predicate ForbidsStoring(resp: Response) {
    && "cache-control" in resp.headers
    && exists line :: line in LinesOf(resp.headers["cache-control"]) && Names(line, "no-store")
  }

  /** The hook finds it: a header of one line, searched as text. */
  predicate NoStoreFound(resp: Response) {
    && "cache-control" in resp.headers && resp.headers["cache-control"].One?
    && Includes(resp.headers["cache-control"].line, "no-store")
  }

  /** Cache-Control came in several lines, or its line spells no directive
      "no-store" in lower case. */
  predicate Overlooked(resp: Response) {
    && "cache-control" in resp.headers
    && (resp.headers["cache-control"].Several? || !Spells(resp.headers["cache-control"].line, "no-store"))
  }

  predicate Successful(resp: Response) { 200 <= resp.status < 300 && resp.payload.Bytes? }

  /** Successful, without a no-store that the hook finds, and a body in hand. */
  predicate Storable(resp: Response) {
    Successful(resp) && !NoStoreFound(resp)
  }

  /** When a successful response that forbids storing is stored all the same:
      exactly if Cache-Control came in several lines, or its one line has the
      name nowhere in lower case. A line that spells the directive in lower case
      is always obeyed. */
  lemma NoStoreIsObeyed(resp: Response)
    requires Successful(resp) && ForbidsStoring(resp)
    ensures var cc := resp.headers["cache-control"];
            Storable(resp) <==> cc.Several? || !Includes(cc.line, "no-store")
    ensures Storable(resp) ==> Overlooked(resp)
  {
    hide Includes, Spells, Names;
    var cc := resp.headers["cache-control"];
    if cc.One? && Spells(cc.line, "no-store") {
      SpelledIsFound(cc.line, "no-store");
    }
  }

  /** Two responses that forbid storing and are stored. */
  const CAPITALISED := Response(200, map["cache-control" := One("No-Store")], Bytes(""))
  const TWO_LINES := Response(200, map["cache-control" := Several(["private", "no-store"])], Bytes(""))

  lemma ForbiddenButStorable()
    ensures ForbidsStoring(CAPITALISED) && Storable(CAPITALISED)
    ensures ForbidsStoring(TWO_LINES) && Storable(TWO_LINES)
  {
    hide Includes, Names;
    OtherSpellings();
    NamesItself();
    assert "No-Store" in LinesOf(CAPITALISED.headers["cache-control"]);
    assert ["private", "no-store"][1] in LinesOf(TWO_LINES.headers["cache-control"]);
  }

  function Copy(resp: Response, now: int): CachedResponse
    requires resp.payload.Bytes?
  {
    CachedResponse(resp.status, map h | h in resp.headers && h in CACHEABLE_HEADERS :: Text(resp.headers[h]),
                   resp.payload.content, now)
  }

  function StoreAfter(store: map<string, Entry>, plan: Plan, resp: Response, now: int, redisUp: bool)
    : map<string, Entry>
  {
    if redisUp && Storable(resp) then store[plan.key := Entry(Copy(resp, now), now + plan.ttl * 1000)] else store
  }

  /** `cfg` is the configuration the request met on arrival. */
  datatype Event =
    | Stored(cfg: Config, req: Request, key: string, resp: Response, at: int, ttl: int)
    | Served(cfg: Config, req: Request, key: string, reply: CachedResponse, at: int)

  datatype Waiting = Waiting(cfg: Config, req: Request, plan: Plan)

  datatype State = State(now: int, store: map<string, Entry>, waiting: map<nat, Waiting>, log: seq<Event>)

  datatype Step =
    | Tick(ms: nat)
    | Arrive(id: nat, cfg: Config, req: Request, redisUp: bool)   // the preHandler hook
    | Respond(id: nat, resp: Response, redisUp: bool)             // the onSend hook of a miss
    | Evict(key: string)

  /** A request that meets its plan: served if its key is visible, else in flight. */
  function ArriveStep(s: State, id: nat, w: Waiting, redisUp: bool): State {
    match Visible(s.store, w.plan.key, s.now, redisUp)
    case Some(copy) => s.(log := s.log + [Served(w.cfg, w.req, w.plan.key, copy, s.now)])
    case None => if id in s.waiting then s else s.(waiting := s.waiting[id := w])
  }

  function RespondStep(s: State, id: nat, resp: Response, redisUp: bool): State {
    if id !in s.waiting then s
    else
      var w := s.waiting[id];
      State(s.now, StoreAfter(s.store, w.plan, resp, s.now, redisUp), s.waiting - {id},
            if redisUp && Storable(resp) then s.log + [Stored(w.cfg, w.req, w.plan.key, resp, s.now, w.plan.ttl)]
            else s.log)
  }

  function Do(s: State, st: Step): State {
    match st
    case Tick(ms) => s.(now := s.now + ms)
    case Arrive(id, cfg, req, redisUp) =>
      var plan := PlanFor(cfg, req);
      if plan.None? then s else ArriveStep(s, id, Waiting(cfg, req, plan.value), redisUp)
    case Respond(id, resp, redisUp) => RespondStep(s, id, resp, redisUp)
    case Evict(key) => s.(store := s.store - {key})
  }

  /** An empty store at some instant. */
  function Empty(start: int): State { State(start, map[], map[], []) }

  function After(s: State, steps: seq<Step>): State {
    if steps == [] then s else Do(After(s, steps[..|steps| - 1]), steps[|steps| - 1])
  }

  lemma AfterAppend(s: State, steps: seq<Step>, st: Step)
    ensures After(s, steps + [st]) == Do(After(s, steps), st)
  {
    assert (steps + [st])[..|steps|] == steps;
  }

  /** `copy` is what `stored` left behind, for a request that was cacheable. */
  ghost predicate CopyOf(copy: CachedResponse, key: string, stored: Event) {
    && stored.Stored? && stored.key == key
    && PlanFor(stored.cfg, stored.req) == Some(Plan(key, stored.ttl))
    && Storable(stored.resp) && copy == Copy(stored.resp, stored.at)
  }

  ghost predicate EntryOf(entry: Entry, key: string, stored: Event) {
    CopyOf(entry.response, key, stored) && entry.expireAt == stored.at + stored.ttl * 1000
  }

  /** Nothing was stored under the key between log positions `j` and `i`. */
  ghost predicate NoStoreBetween(log: seq<Event>, j: int, i: int, key: string)
    requires 0 <= j && i <= |log|
  {
    forall k :: j < k < i ==> !(log[k].Stored? && log[k].key == key)
  }

  ghost predicate EntryLogged(entry: Entry, key: string, log: seq<Event>) {
    exists i :: 0 <= i < |log| && EntryOf(entry, key, log[i]) && NoStoreBetween(log, i, |log|, key)
  }

  ghost predicate StoreInv(s: State) {
    && (forall id :: id in s.waiting ==> PlanFor(s.waiting[id].cfg, s.waiting[id].req) == Some(s.waiting[id].plan))
    && (forall i :: 0 <= i < |s.log| ==> s.log[i].at <= s.now)
    && (forall key :: key in s.store ==> EntryLogged(s.store[key], key, s.log))
  }

  /** `hit` repeats `stored` and is younger than its ttl. */
  ghost predicate Justifies(hit: Event, stored: Event)
    requires hit.Served?
  {
    CopyOf(hit.reply, hit.key, stored) && 0 <= hit.at - stored.at < stored.ttl * 1000
  }

  /** A hit at log position `i` is justified by an earlier store. */
  ghost predicate HitJustified(log: seq<Event>, i: nat)
    requires i < |log| && log[i].Served?
  {
    && PlanFor(log[i].cfg, log[i].req).Some? && PlanFor(log[i].cfg, log[i].req).value.key == log[i].key
    && exists j :: 0 <= j < i && Justifies(log[i], log[j]) && NoStoreBetween(log, j, i, log[i].key)
  }

  ghost predicate HitsInv(log: seq<Event>) {
    forall i :: 0 <= i < |log| && log[i].Served? ==> HitJustified(log, i)
  }

  lemma HitsAppend(log: seq<Event>, e: Event)
    requires HitsInv(log)
    requires e.Served? ==> HitJustified(log + [e], |log|)
    ensures HitsInv(log + [e])
  {
    hide PlanFor, Justifies;
    var more := log + [e];
    forall i | 0 <= i < |more| && more[i].Served?
      ensures HitJustified(more, i)
    {
      if i < |log| {
        assert HitJustified(log, i);
        var j :| 0 <= j < i && Justifies(log[i], log[j]) && NoStoreBetween(log, j, i, log[i].key);
        assert more[j] == log[j] && more[i] == log[i];
        assert NoStoreBetween(more, j, i, more[i].key);
      }
    }
  }

  lemma EntryStaysLogged(entry: Entry, key: string, log: seq<Event>, e: Event)
    requires EntryLogged(entry, key, log)
    requires e.Served? || e.key != key
    ensures EntryLogged(entry, key, log + [e])
  {
    hide EntryOf;
    var i :| 0 <= i < |log| && EntryOf(entry, key, log[i]) && NoStoreBetween(log, i, |log|, key);
    assert (log + [e])[i] == log[i];
    assert NoStoreBetween(log + [e], i, |log| + 1, key);
  }

  lemma ArriveKeeps(s: State, id: nat, w: Waiting, redisUp: bool)
    requires StoreInv(s) && HitsInv(s.log) && PlanFor(w.cfg, w.req) == Some(w.plan)
    ensures StoreInv(ArriveStep(s, id, w, redisUp)) && HitsInv(ArriveStep(s, id, w, redisUp).log)
  {
    hide PlanFor, CopyOf, HitsInv;
    if Visible(s.store, w.plan.key, s.now, redisUp).Some? {
      var key := w.plan.key;
      var e := Served(w.cfg, w.req, key, s.store[key].response, s.now);
      forall k | k in s.store
        ensures EntryLogged(s.store[k], k, s.log + [e])
      {
        EntryStaysLogged(s.store[k], k, s.log, e);
      }
      var i :| 0 <= i < |s.log| && EntryOf(s.store[key], key, s.log[i]) && NoStoreBetween(s.log, i, |s.log|, key);
      assert (s.log + [e])[i] == s.log[i] && Justifies(e, s.log[i]);
      assert NoStoreBetween(s.log + [e], i, |s.log|, key);
      HitsAppend(s.log, e);
    }
  }

  lemma RespondKeeps(s: State, id: nat, resp: Response, redisUp: bool)
    requires StoreInv(s) && HitsInv(s.log)
    ensures StoreInv(RespondStep(s, id, resp, redisUp)) && HitsInv(RespondStep(s, id, resp, redisUp).log)
  {
    hide PlanFor, HitsInv, Storable, Copy;
    if id in s.waiting && redisUp && Storable(resp) {
      var w := s.waiting[id];
      var e := Stored(w.cfg, w.req, w.plan.key, resp, s.now, w.plan.ttl);
      var s' := RespondStep(s, id, resp, redisUp);
      HitsAppend(s.log, e);
      forall k | k in s'.store
        ensures EntryLogged(s'.store[k], k, s.log + [e])
      {
        if k == w.plan.key {
          assert EntryOf(s'.store[k], k, (s.log + [e])[|s.log|]);
          assert NoStoreBetween(s.log + [e], |s.log|, |s.log| + 1, k);
        } else {
          EntryStaysLogged(s.store[k], k, s.log, e);
        }
      }
    }
  }

  lemma RunStep(s: State, st: Step)
    requires StoreInv(s) && HitsInv(s.log)
    ensures StoreInv(Do(s, st)) && HitsInv(Do(s, st).log)
  {
    hide PlanFor, EntryLogged, HitsInv;
    match st
    case Arrive(id, cfg, req, redisUp) =>
      if PlanFor(cfg, req).Some? {
        ArriveKeeps(s, id, Waiting(cfg, req, PlanFor(cfg, req).value), redisUp);
      }
    case Respond(id, resp, redisUp) => RespondKeeps(s, id, resp, redisUp);
    case Tick(_) =>
    case Evict(_) =>
  }

  lemma {:induction false} RunInv(start: int, steps: seq<Step>)
    ensures StoreInv(After(Empty(start), steps)) && HitsInv(After(Empty(start), steps).log)
  {
    if steps != [] {
      var init := steps[..|steps| - 1];
      RunInv(start, init);
      RunStep(After(Empty(start), init), steps[|steps| - 1]);
    }
  }

  /** The route a request is for. */
  function RouteFor(cfg: Config, req: Request): Option<Route> {
    match RouteMatcher.MatchRoute(RouteMatcher.PathOf(req.url), cfg.routes)
    case None => None
    case Some(m) => Some(m.route)
  }

  /** Both requests are for a route of the same name, with the same method and
      path, carry the same query pieces, and neither has credentials; under
      one configuration the route is the same. */
  ghost predicate KeyEquivalent(c: Config, a: Request, d: Config, b: Request) {
    && RouteFor(c, a).Some? && RouteFor(d, b).Some? && RouteFor(c, a).value.name == RouteFor(d, b).value.name
    && (c == d ==> RouteFor(c, a) == RouteFor(d, b))
    && a.verb == b.verb
    && RouteMatcher.PathOf(a.url) == RouteMatcher.PathOf(b.url)
    && multiset(Pieces(a.url)) == multiset(Pieces(b.url))
    && Uncommitted(a) && Uncommitted(b)
  }

  /** The route names are ones the admin API accepts. */
  predicate ValidNames(cfg: Config) {
    forall r :: r in cfg.routes ==> ValidName(r.name)
  }

  lemma SamePlanKey(c: Config, a: Request, d: Config, b: Request)
    requires ValidNames(c) && ValidNames(d)
    requires PlanFor(c, a).Some? && PlanFor(d, b).Some?
    requires PlanFor(c, a).value.key == PlanFor(d, b).value.key
    ensures KeyEquivalent(c, a, d, b)
    ensures a.authorization.None? || a.authorization == Some("")
    ensures b.authorization.None? || b.authorization == Some("")
    ensures a.verb == "GET" || a.verb == "HEAD"
  {
    hide BuildCacheKey, RouteMatcher.MatchRoute, RouteMatcher.PathOf, HasBypassHeaders, Pieces;
    var ma := RouteMatcher.MatchRoute(RouteMatcher.PathOf(a.url), c.routes).value;
    var mb := RouteMatcher.MatchRoute(RouteMatcher.PathOf(b.url), d.routes).value;
    RouteMatcher.UpstreamPath(RouteMatcher.PathOf(a.url), c.routes);
    RouteMatcher.UpstreamPath(RouteMatcher.PathOf(b.url), d.routes);
    PlannedWhen(c, a);
    PlannedWhen(d, b);
    SameKey(ma.route.name, a.verb, a.url, mb.route.name, b.verb, b.url);
  }

  /** The headers a copy keeps. */
  ghost predicate Kept(h: string) {
    || h == "content-type" || h == "content-encoding" || h == "etag" || h == "last-modified"
    || h == "cache-control" || h == "x-request-id"
  }

  /** What a justified hit owes to the stored response. */
  ghost predicate FreshCopy(hit: Event, stored: Event)
    requires hit.Served?
  {
    && stored.Stored?
    && KeyEquivalent(hit.cfg, hit.req, stored.cfg, stored.req)
    && (OneQuestionMark(hit.req.url) && OneQuestionMark(stored.req.url) ==> SameResource(hit.req.url, stored.req.url))
    && 200 <= stored.resp.status <= 299
    && (hit.req.verb == "GET" || hit.req.verb == "HEAD")
    && (hit.req.authorization.None? || hit.req.authorization == Some(""))
    && (stored.req.authorization.None? || stored.req.authorization == Some(""))
    && (ForbidsStoring(stored.resp) ==> Overlooked(stored.resp))
    && hit.reply.status == stored.resp.status
    && Bytes(hit.reply.body) == stored.resp.payload
    && hit.reply.cachedAt == stored.at
    && (forall h :: h in hit.reply.headers <==> h in stored.resp.headers && Kept(h))
    && (forall h :: h in hit.reply.headers ==> hit.reply.headers[h] == Text(stored.resp.headers[h]))
    && RouteFor(stored.cfg, stored.req).Some?
    && stored.ttl == LifetimeOf(stored.cfg, RouteFor(stored.cfg, stored.req).value.id)
    && 0 <= hit.at - stored.at < stored.ttl * 1000
    && AgeSeconds(hit.reply, hit.at) < stored.ttl
  }

  /** In every run, each hit returns the status, the body and the kept headers of
      an earlier successful response to an equivalent request. That response
      came from the upstream, did not forbid storing in a way the hook finds, is
      the last one stored under the key, and was stored less ago than the
      lifetime of the configuration its request met: serving it in between has
      not prolonged it. The configuration may change between the two. Urls with
      at most one '?' make the equivalence the intended one. */
  lemma HitsAreFreshCopies(start: int, steps: seq<Step>, i: nat)
    requires forall k :: 0 <= k < |After(Empty(start), steps).log| ==>
               ValidNames(After(Empty(start), steps).log[k].cfg)
    requires i < |After(Empty(start), steps).log| && After(Empty(start), steps).log[i].Served?
    ensures var log := After(Empty(start), steps).log;
            exists j :: 0 <= j < i && FreshCopy(log[i], log[j]) && NoStoreBetween(log, j, i, log[i].key)
  {
    hide PlanFor, After, Justifies, FreshCopy, ValidNames;
    RunInv(start, steps);
    var log := After(Empty(start), steps).log;
    assert HitJustified(log, i);
    var j :| 0 <= j < i && Justifies(log[i], log[j]) && NoStoreBetween(log, j, i, log[i].key);
    JustifiedIsFresh(log[i], log[j]);
  }

  lemma CopyMeans(resp: Response, now: int)
    requires resp.payload.Bytes?
    ensures var copy := Copy(resp, now);
      && copy.status == resp.status && Bytes(copy.body) == resp.payload && copy.cachedAt == now
      && (forall h :: h in copy.headers <==> h in resp.headers && Kept(h))
      && (forall h :: h in copy.headers ==> copy.headers[h] == Text(resp.headers[h]))
  {
    hide Text;
  }

  lemma JustifiedIsFresh(hit: Event, stored: Event)
    requires ValidNames(hit.cfg) && ValidNames(stored.cfg)
    requires hit.Served? && Justifies(hit, stored)
    requires PlanFor(hit.cfg, hit.req).Some? && PlanFor(hit.cfg, hit.req).value.key == hit.key
    ensures FreshCopy(hit, stored)
  {
    hide PlanFor, Copy, Text, KeyEquivalent, SameResource, OneQuestionMark, ForbidsStoring, NoStoreFound, Overlooked;
    CopyMeans(stored.resp, stored.at);
    SamePlanKey(hit.cfg, hit.req, stored.cfg, stored.req);
    PlannedWhen(stored.cfg, stored.req);
    if ForbidsStoring(stored.resp) {
      NoStoreIsObeyed(stored.resp);
    }
    if OneQuestionMark(hit.req.url) && OneQuestionMark(stored.req.url) {
      EquivalentResource(hit, stored);
    }
  }

  lemma EquivalentResource(hit: Event, stored: Event)
    requires KeyEquivalent(hit.cfg, hit.req, stored.cfg, stored.req)
    requires OneQuestionMark(hit.req.url) && OneQuestionMark(stored.req.url)
    ensures SameResource(hit.req.url, stored.req.url)
  {
    OneMarkResource(hit.req.url, stored.req.url);
  }

  lemma OneMarkResource(u: string, v: string)
    requires RouteMatcher.PathOf(u) == RouteMatcher.PathOf(v) && multiset(Pieces(u)) == multiset(Pieces(v))
    requires OneQuestionMark(u) && OneQuestionMark(v)
    ensures SameResource(u, v)
  {
    hide NonEmpty, Split, QueryOf, WholeQuery, OneQuestionMark;
    WholeIsCut(u);
    WholeIsCut(v);
  }

  /** X-Cache-Age: the whole seconds since the store. */
  function AgeSeconds(copy: CachedResponse, now: int): (age: int)
    ensures 1000 * age <= now - copy.cachedAt < 1000 * age + 1000
  {
    (now - copy.cachedAt) / 1000
  }

  /** Whatever is storable is served, forbidden or not: from every empty store,
      the response to a cacheable request is the reply to the next one, as long
      as less than its lifetime has passed, and no longer. */
  lemma StoredIsServed(start: int, cfg: Config, req: Request, resp: Response, ms: nat)
    requires PlanFor(cfg, req).Some? && Storable(resp)
    ensures var Plan(key, ttl) := PlanFor(cfg, req).value;
            var log := After(Empty(start), AskTwice(cfg, req, resp, ms)).log;
            var stored := Stored(cfg, req, key, resp, start, ttl);
            log == if ms < ttl * 1000 then [stored, Served(cfg, req, key, Copy(resp, start), start + ms)] else [stored]
  {
    hide PlanFor, Storable, Copy;
    PlanIsPositive(cfg, req);
    var s, a, r, t := Empty(start), Arrive(0, cfg, req, true), Respond(0, resp, true), Tick(ms);
    AfterAppend(s, [], a);
    assert [] + [a] == [a];
    AfterAppend(s, [a], r);
    AfterAppend(s, [a] + [r], t);
    AfterAppend(s, [a] + [r] + [t], Arrive(1, cfg, req, true));
  }

  /** A request, its response, a pause and the same request again. */
  function AskTwice(cfg: Config, req: Request, resp: Response, ms: nat): seq<Step> {
    [Arrive(0, cfg, req, true)] + [Respond(0, resp, true)] + [Tick(ms)] + [Arrive(1, cfg, req, true)]
  }

  /** So a response that forbids storing is served from the cache, if it says so
      in capitals or in a second line. */
  lemma ForbiddenIsServed(start: int, cfg: Config, req: Request, resp: Response)
    requires PlanFor(cfg, req).Some?
    requires resp == CAPITALISED || resp == TWO_LINES
    ensures ForbidsStoring(resp)
    ensures exists hit :: hit in After(Empty(start), AskTwice(cfg, req, resp, 0)).log
                          && hit.Served? && hit.reply == Copy(resp, start)
  {
    hide PlanFor, ForbidsStoring, NoStoreFound, Copy, After, AskTwice;
    ForbiddenButStorable();
    PlanIsPositive(cfg, req);
    StoredIsServed(start, cfg, req, resp, 0);
    var log := After(Empty(start), AskTwice(cfg, req, resp, 0)).log;
    assert log[1] in log;
  }

  /** What is stored, and as what: a response of status 200 to 299 with a body in
      hand, unless the one line of its Cache-Control has the text. */
  lemma StoredWhen(store: map<string, Entry>, plan: Plan, resp: Response, now: int, redisUp: bool)
    ensures var after := StoreAfter(store, plan, resp, now, redisUp);
            var stores := redisUp && 200 <= resp.status <= 299 && resp.payload.Bytes?
                          && !("cache-control" in resp.headers && resp.headers["cache-control"].One?
                               && Includes(resp.headers["cache-control"].line, "no-store"));
      && (!stores ==> after == store)
      && (stores ==>
            && plan.key in after && after - {plan.key} == store - {plan.key}
            && after[plan.key].expireAt == now + 1000 * plan.ttl
            && after[plan.key].response == Copy(resp, now))
  {
    hide Includes, Copy;
  }

  /** `long` is `short` except for one more event at log position `p`. */
  ghost predicate SameBut(long: State, short: State, p: nat, e: Event) {
    && long.now == short.now && long.store == short.store && long.waiting == short.waiting
    && p <= |short.log| && long.log == short.log[..p] + [e] + short.log[p..]
  }

  lemma SameButStep(long: State, short: State, p: nat, e: Event, st: Step)
    requires SameBut(long, short, p, e)
    ensures SameBut(Do(long, st), Do(short, st), p, e)
  {
    hide PlanFor, Storable, Copy;
    var log, log' := short.log, Do(short, st).log;
    if log' != log {
      var x := log'[|log|];
      assert log' == log + [x] && Do(long, st).log == long.log + [x];
      assert log'[..p] == log[..p] && log'[p..] == log[p..] + [x];
    }
  }

  /** A hit leaves no trace: take its arrival out of any run, and the store with
      all its lifetimes, the pending requests and every other event are what
      they were. So no chain of hits prolongs an entry. */
  lemma {:induction false} HitLeavesNoTrace(s: State, id: nat, cfg: Config, req: Request, redisUp: bool,
                                            later: seq<Step>)
    requires PlanFor(cfg, req).Some? && Visible(s.store, PlanFor(cfg, req).value.key, s.now, redisUp).Some?
    ensures var key := PlanFor(cfg, req).value.key;
            SameBut(After(Do(s, Arrive(id, cfg, req, redisUp)), later), After(s, later),
                    |s.log|, Served(cfg, req, key, s.store[key].response, s.now))
  {
    hide PlanFor, SameBut;
    var key := PlanFor(cfg, req).value.key;
    var e := Served(cfg, req, key, s.store[key].response, s.now);
    if later == [] {
      OneMoreEvent(s, e);
    } else {
      var init := later[..|later| - 1];
      HitLeavesNoTrace(s, id, cfg, req, redisUp, init);
      SameButStep(After(Do(s, Arrive(id, cfg, req, redisUp)), init), After(s, init), |s.log|, e, later[|later| - 1]);
    }
  }

  lemma OneMoreEvent(s: State, e: Event)
    ensures SameBut(s.(log := s.log + [e]), s, |s.log|, e)
  {
  }

  datatype Outcome =
    | Bypassed
    | Hit(reply: CachedResponse, ageSeconds: int)
    | Miss

  /** Per-request context shared by the two hooks; it starts without a key. */
  class RequestContext {
    const id: nat
    const req: Request
    var cacheKey: Option<string>
    var cacheTtl: int

    constructor (id: nat, req: Request)
      ensures this.id == id && this.req == req && cacheKey == None
    {
      this.id, this.req := id, req;
      cacheKey, cacheTtl := None, 0;
    }
  }

  /** The hooks on their store. The ghost fields record the run of the steps
      above that the calls so far amount to, the state it has reached, and the
      contexts that hold a key and have not been replied to. */
  class CacheHooks {
    var store: map<string, Entry>
    ghost const start: int
    ghost var steps: seq<Step>
    ghost var state: State
    ghost var awaiting: map<nat, RequestContext>

    /** What the context holds is what waits under its id. */
    ghost predicate Awaits(c: RequestContext, id: nat)
      reads this, c
    {
      && c.id == id && c.cacheKey.Some? && c.cacheTtl > 0 && id in state.waiting
      && state.waiting[id].req == c.req && state.waiting[id].plan == Plan(c.cacheKey.value, c.cacheTtl)
    }

    ghost predicate Valid()
      reads this, awaiting.Values
    {
      && state == After(Empty(start), steps) && store == state.store
      && awaiting.Keys == state.waiting.Keys
      && forall id :: id in awaiting ==> Awaits(awaiting[id], id)
    }

    constructor (ghost start: int)
      ensures this.start == start
      ensures Valid() && state == Empty(start) && awaiting == map[]
    {
      this.start := start;
      store, steps, state, awaiting := map[], [], Empty(start), map[];
    }

    /** The steps of one hook call: time passes, then the step is taken. */
    ghost function Moved(now: int, st: Step): (s: State)
      requires now >= state.now
      reads this
    {
      Do(Do(state, Tick(now - state.now)), st)
    }

    lemma RunMoves(now: int, st: Step)
      requires now >= state.now && state == After(Empty(start), steps)
      ensures After(Empty(start), steps + [Tick(now - state.now)] + [st]) == Moved(now, st)
    {
      hide Do;
      AfterAppend(Empty(start), steps, Tick(now - state.now));
      AfterAppend(Empty(start), steps + [Tick(now - state.now)], st);
    }

    lemma ArrivalMeans(now: int, id: nat, cfg: Config, req: Request, redisUp: bool)
      requires now >= state.now && id !in state.waiting
      ensures var s, plan := Moved(now, Arrive(id, cfg, req, redisUp)), PlanFor(cfg, req);
        && s.now == now && s.store == state.store
        && (plan.None? ==> s.waiting == state.waiting && s.log == state.log)
        && (plan.Some? ==>
              match Visible(state.store, plan.value.key, now, redisUp)
              case Some(copy) =>
                s.waiting == state.waiting && s.log == state.log + [Served(cfg, req, plan.value.key, copy, now)]
              case None => s.waiting == state.waiting[id := Waiting(cfg, req, plan.value)] && s.log == state.log)
    {
      hide PlanFor;
    }

    /** The tests that come before the lookup. */
    method Cacheable(cfg: Config, req: Request) returns (plan: Option<Plan>)
      ensures plan == PlanFor(cfg, req) && (plan.Some? ==> plan.value.ttl > 0)
      ensures req.authorization.Some? && req.authorization.value != "" ==> plan.None?
      ensures plan.Some? ==> req.verb == "GET" || req.verb == "HEAD"
    {
      if !cfg.cacheEnabled || !IsCacheableMethod(req.verb) || HasBypassHeaders(req) {
        return None;
      }
      var path := RouteMatcher.PathOf(req.url);
      if RouteMatcher.InternalPath(path) {
        return None;
      }
      var matched := RouteMatcher.MatchRoute(path, cfg.routes);
      if matched.None? {
        return None;
      }
      var route := matched.value.route;
      var ttl := cfg.defaultTtl;
      if route.id in cfg.policies && cfg.policies[route.id].cacheTtlSeconds.Some? {
        ttl := cfg.policies[route.id].cacheTtlSeconds.value;
      }
      if ttl <= 0 {
        return None;
      }
      plan := Some(Plan(BuildCacheKey(route.name, req.verb, req.url), ttl));
    }

    /** `cacheMiddleware`, an arrival of the run; `cfg` is what `getConfig` returns. */
    method CacheMiddleware(cfg: Config, ctx: RequestContext, now: int, redisUp: bool) returns (out: Outcome)
      requires Valid() && now >= state.now
      requires ctx.cacheKey.None? && ctx.id !in awaiting
      modifies this`steps, this`state, this`awaiting, ctx
      ensures Valid()
      ensures steps == old(steps) + [Tick(now - old(state.now))] + [Arrive(ctx.id, cfg, ctx.req, redisUp)]
      ensures state == old(Moved(now, Arrive(ctx.id, cfg, ctx.req, redisUp))) && state.now == now
      ensures out.Bypassed? <==> PlanFor(cfg, ctx.req).None?
      ensures ctx.req.authorization.Some? && ctx.req.authorization.value != "" ==> out.Bypassed?
      ensures ctx.req.verb != "GET" && ctx.req.verb != "HEAD" ==> out.Bypassed?
      ensures !redisUp ==> !out.Hit?
      ensures out.Hit? <==>
                PlanFor(cfg, ctx.req).Some? && Visible(store, PlanFor(cfg, ctx.req).value.key, now, redisUp).Some?
      ensures out.Hit? ==> Visible(store, PlanFor(cfg, ctx.req).value.key, now, redisUp) == Some(out.reply)
                           && out.ageSeconds == AgeSeconds(out.reply, now)
                           && state.log == old(state.log)
                                + [Served(cfg, ctx.req, PlanFor(cfg, ctx.req).value.key, out.reply, now)]
      ensures out.Miss? ==> ctx.cacheKey == Some(PlanFor(cfg, ctx.req).value.key)
                            && ctx.cacheTtl == PlanFor(cfg, ctx.req).value.ttl
                            && awaiting == old(awaiting)[ctx.id := ctx]
      ensures !out.Miss? ==> ctx.cacheKey == None && ctx.cacheTtl == old(ctx.cacheTtl) && awaiting == old(awaiting)
    {
      hide PlanFor, After, Moved, Do;
      RunMoves(now, Arrive(ctx.id, cfg, ctx.req, redisUp));
      ArrivalMeans(now, ctx.id, cfg, ctx.req, redisUp);
      steps, state := steps + [Tick(now - state.now)] + [Arrive(ctx.id, cfg, ctx.req, redisUp)],
                      Moved(now, Arrive(ctx.id, cfg, ctx.req, redisUp));
      var plan := Cacheable(cfg, ctx.req);
      if plan.None? {
        return Bypassed;
      }
      var cached := Visible(store, plan.value.key, now, redisUp);
      if cached.Some? {
        return Hit(cached.value, AgeSeconds(cached.value, now));
      }
      ctx.cacheKey, ctx.cacheTtl := Some(plan.value.key), plan.value.ttl;
      awaiting := awaiting[ctx.id := ctx];
      out := Miss;
    }

    /** The tests that come before a store, and the store. */
    method StoreReply(plan: Plan, resp: Response, now: int, redisUp: bool)
      modifies this`store
      ensures store == StoreAfter(old(store), plan, resp, now, redisUp)
    {
      if resp.status < 200 || resp.status >= 300 {
        return;
      }
      if "cache-control" in resp.headers {
        var upstreamCc := resp.headers["cache-control"];
        if upstreamCc.One? && Includes(upstreamCc.line, "no-store") {
          return;
        }
      }
      if resp.payload.Stream? {
        return;
      }
      if redisUp {
        store := store[plan.key := Entry(Copy(resp, now), now + plan.ttl * 1000)];
      }
    }

    /** `cacheOnSend`, a reply of the run: stores the reply of a miss, and only
        that. It runs once for each reply. */
    method CacheOnSend(ctx: RequestContext, resp: Response, now: int, redisUp: bool)
      requires Valid() && now >= state.now
      requires if ctx.id in awaiting then awaiting[ctx.id] == ctx else ctx.cacheKey.None?
      modifies this
      ensures Valid() && awaiting == old(awaiting) - {ctx.id}
      ensures steps == old(steps) + [Tick(now - old(state.now))] + [Respond(ctx.id, resp, redisUp)]
      ensures state == old(Moved(now, Respond(ctx.id, resp, redisUp))) && state.now == now
      ensures ctx.cacheKey.None? ==> store == old(store)
      ensures ctx.cacheKey.Some? ==>
                store == StoreAfter(old(store), Plan(ctx.cacheKey.value, ctx.cacheTtl), resp, now, redisUp)
    {
      hide StoreAfter, Storable, After;
      RunMoves(now, Respond(ctx.id, resp, redisUp));
      steps, state := steps + [Tick(now - state.now)] + [Respond(ctx.id, resp, redisUp)],
                      Moved(now, Respond(ctx.id, resp, redisUp));
      awaiting := awaiting - {ctx.id};
      if ctx.cacheKey.None? || ctx.cacheTtl == 0 {
        return;
      }
      StoreReply(Plan(ctx.cacheKey.value, ctx.cacheTtl), resp, now, redisUp);
    }

    /** Redis may drop an entry whenever it likes. */
    method Evict(key: string)
      requires Valid()
      modifies this
      ensures Valid() && store == old(store) - {key} && awaiting == old(awaiting)
    {
      hide After;
      AfterAppend(Empty(start), steps, Step.Evict(key));
      steps, state, store := steps + [Step.Evict(key)], state.(store := store - {key}), store - {key};
    }

    /** A request through both hooks. Only a miss may store; after a hit, or a
        bypass, the hook on the reply changes nothing, whatever is sent. */
    method ServeRequest(cfg: Config, ctx: RequestContext, sent: Response,
                        now: int, later: int, upThen: bool, upLater: bool)
      returns (out: Outcome)
      requires Valid() && state.now <= now <= later
      requires ctx.cacheKey.None? && ctx.id !in awaiting
      modifies this, ctx
      ensures Valid() && awaiting == old(awaiting)
      ensures !out.Miss? ==> store == old(store)
      ensures out.Miss? ==>
                && PlanFor(cfg, ctx.req).Some?
                && store == StoreAfter(old(store), PlanFor(cfg, ctx.req).value, sent, later, upLater)
    {
      hide Do, PlanFor, After, StoreAfter, Visible, Moved, Valid, AgeSeconds;
      out := CacheMiddleware(cfg, ctx, now, upThen);
      CacheOnSend(ctx, sent, later, upLater);
    }

    /** Every reply the hooks have served from the store is a fresh copy. */
    lemma ServedIsFresh(i: nat)
      requires Valid() && forall k :: 0 <= k < |state.log| ==> ValidNames(state.log[k].cfg)
      requires i < |state.log| && state.log[i].Served?
      ensures exists j :: 0 <= j < i && FreshCopy(state.log[i], state.log[j])
                          && NoStoreBetween(state.log, j, i, state.log[i].key)
    {
      HitsAreFreshCopies(start, steps, i);
    }
  }
}
