/** The limiter service on its Redis keys, and the middleware in front of it. */
module RateLimiter {
  import opened Strings
  import opened Models
  import opened Arithmetic
  import opened SlidingWindow
  import opened LimiterTheorems
  import CacheKey
  import RouteMatcher

  datatype RateLimitResult = RateLimitResult(allowed: bool, remaining: int, resetAtMs: int, limit: int)

  datatype LimitReply =
    | Unlimited                                              // no headers set
    | Within(result: RateLimitResult)
    | TooManyRequests(result: RateLimitResult, retryAfterSeconds: int)

  function KeyOf(routeName: string, clientId: string): string {
    "rl:" + routeName + ":" + clientId
  }

  /** Every route and client has a window of its own, whatever the client id is. */
  lemma KeysSeparateClients(r1: string, c1: string, r2: string, c2: string)
    requires ValidName(r1) && ValidName(r2)
    ensures KeyOf(r1, c1) == KeyOf(r2, c2) <==> r1 == r2 && c1 == c2
  {
    if KeyOf(r1, c1) == KeyOf(r2, c2) {
      assert KeyOf(r1, c1)[3..] == r1 + [':'] + c1 && KeyOf(r2, c2)[3..] == r2 + [':'] + c2;
      FirstSeparator(r1, c1, r2, c2, ':');
    }
  }

  /** The limiter's keys and the cache's lie apart in the Redis they share. */
  lemma KeysApart(routeName: string, clientId: string, r: string, verb: string, url: string)
    ensures "rl:" <= KeyOf(routeName, clientId) && "gw:cache:" <= CacheKey.BuildCacheKey(r, verb, url)
    ensures KeyOf(routeName, clientId) != CacheKey.BuildCacheKey(r, verb, url)
  {
    CacheKey.KeyShape(r, verb, url);
    assert "rl:" <= KeyOf(routeName, clientId);
    assert KeyOf(routeName, clientId)[0] == 'r' && CacheKey.BuildCacheKey(r, verb, url)[0] == 'g';
  }

  class RateLimiter {
    var keys: map<string, Bucket>
    ghost var history: map<string, seq<Call>>   // the calls that reached the script

    ghost function CallsOn(key: string): seq<Call>
      reads this
    {
      if key in history then history[key] else []
    }

    function BucketOn(key: string): Bucket
      reads this
    {
      if key in keys then keys[key] else EMPTY
    }

    /** Every key is what the script makes of the calls on it. */
    ghost predicate Valid()
      reads this
    {
      forall key :: BucketOn(key) == After(CallsOn(key), |CallsOn(key)|, true)
    }

    /** Seen at any instant since its last call, a key holds exactly the members
        admitted on it in the window that ends there. */
    lemma LiveKeyIsWindow(key: string, now: int)
      requires Valid() && Ordered(CallsOn(key))
      requires CallsOn(key) != [] ==> CallsOn(key)[|CallsOn(key)| - 1].now <= now
      ensures var calls := CallsOn(key);
              Pruned(BucketOn(key), now, true)
                == MembersIn(calls, Flags(calls, true), |calls|, now - 1000, now)
    {
      hide Pruned, Flags;
      var calls := CallsOn(key);
      SetIsWindow(calls, Flags(calls, true), |calls|, true, now);
    }

    constructor ()
      ensures Valid() && history == map[]
    {
      keys, history := map[], map[];
    }

    /** `checkRateLimit`; `burst` is the limit, an unreachable Redis allows. */
    method CheckRateLimit(routeName: string, clientId: string, burst: int, now: int, nonce: int, redisUp: bool)
      returns (r: RateLimitResult)
      requires Valid()
      modifies this
      ensures Valid() && r.limit == burst && r.resetAtMs == now + 1000
      ensures !redisUp ==> r.allowed && r.remaining == burst && keys == old(keys) && history == old(history)
      ensures var key := KeyOf(routeName, clientId);
              var calls := old(CallsOn(key)) + [Call(now, nonce, burst)];
              redisUp ==>
                && history == old(history)[key := calls]
                && keys == old(keys)[key := After(calls, |calls|, true)]
                && r.allowed == Answer(calls, |calls| - 1, true).allowed
                && r.remaining == Answer(calls, |calls| - 1, true).remaining >= 0
    {
      hide Pruned, KeyOf;
      if !redisUp {
        return RateLimitResult(true, burst, now + WINDOW_MS, burst);
      }
      var key, c := KeyOf(routeName, clientId), Call(now, nonce, burst);
      ghost var before := CallsOn(key);
      AfterPrefix(before, before + [c], |before|, true);
      var result := Script(BucketOn(key), c, true);
      history := history[key := before + [c]];
      keys := keys[key := result.bucket];
      assert BucketOn(key) == After(before + [c], |before| + 1, true);
      forall other | other != key
        ensures BucketOn(other) == After(CallsOn(other), |CallsOn(other)|, true)
      {
        assert BucketOn(other) == old(BucketOn(other)) && CallsOn(other) == old(CallsOn(other));
      }
      r := RateLimitResult(result.allowed, if result.remaining > 0 then result.remaining else 0,
                           now + WINDOW_MS, burst);
    }

    /** `rateLimitMiddleware`: skip, or check and answer 429 with Retry-After.
        `now` is the limiter's clock reading, `clock` the one of the reply. */
    method Limit(enabled: bool, url: string, userId: Option<string>, ip: string,
                 routes: seq<Route>, policies: map<string, Policy>, defaultBurst: int,
                 now: int, nonce: int, clock: int, redisUp: bool)
      returns (reply: LimitReply)
      requires Valid()
      modifies this
      ensures Valid()
      ensures var path := RouteMatcher.PathOf(url);
              reply.Unlimited? <==>
                || !enabled || RouteMatcher.MatchRoute(path, routes).None?
                || path == "/healthz" || path == "/readyz" || path == "/metrics"
                || (|path| >= 5 && path[..5] == "/docs") || (|path| >= 6 && path[..6] == "/admin")
      ensures var path := RouteMatcher.PathOf(url);
              enabled && "/api" <= path && RouteMatcher.MatchRoute(path, routes).Some? ==> !reply.Unlimited?
      ensures reply.Unlimited? ==> keys == old(keys) && history == old(history)
      ensures !reply.Unlimited? ==>
                var route := RouteMatcher.MatchRoute(RouteMatcher.PathOf(url), routes).value.route;
                var key := KeyOf(route.name, if userId.Some? then userId.value else ip);
                var calls := old(CallsOn(key)) + [Call(now, nonce, reply.result.limit)];
                && (reply.TooManyRequests? <==> redisUp && !Answer(calls, |calls| - 1, true).allowed)
                && (redisUp ==> history == old(history)[key := calls]
                                && reply.result.remaining == Answer(calls, |calls| - 1, true).remaining)
                && reply.result.resetAtMs == now + 1000
                && (reply.TooManyRequests? ==>
                      && reply.retryAfterSeconds == RetryAfterSeconds(now + 1000, clock)
                      && 1000 * reply.retryAfterSeconds >= now + 1000 - clock > 1000 * (reply.retryAfterSeconds - 1))
                && reply.result.limit == (if route.id in policies && policies[route.id].rateLimitBurst.Some?
                                          then policies[route.id].rateLimitBurst.value else defaultBurst)
    {
      hide Script, After, KeyOf, RouteMatcher.PathOf, RouteMatcher.InternalPath, RouteMatcher.MatchRoute, CeilDiv;
      var path := RouteMatcher.PathOf(url);
      RouteMatcher.InternalPaths(path);
      if !enabled || RouteMatcher.InternalPath(path) {
        return Unlimited;
      }
      var matched := RouteMatcher.MatchRoute(path, routes);
      if matched.None? {
        return Unlimited;
      }
      var route := matched.value.route;
      var burst := defaultBurst;
      if route.id in policies && policies[route.id].rateLimitBurst.Some? {
        burst := policies[route.id].rateLimitBurst.value;
      }
      var clientId := if userId.Some? then userId.value else ip;
      var result := CheckRateLimit(route.name, clientId, burst, now, nonce, redisUp);
      if result.allowed {
        reply := Within(result);
      } else {
        var seconds := RetryAfterSeconds(result.resetAtMs, clock);
        CeilDivIsLeast(result.resetAtMs - clock, 1000, seconds);
        CeilDivIsLeast(result.resetAtMs - clock, 1000, seconds - 1);
        reply := TooManyRequests(result, seconds);
      }
    }
  }
}
