# A verified model of the API gateway

This project models the core of the TypeScript API gateway in Dafny and proves
what it guarantees over all runs and all inputs: the configuration hot reload,
the Redis sliding-window rate limiter, routing, the response cache, the metrics,
retries, the circuit-breaker registry and trace propagation. Run
`dafny verify dfyconfig.toml` to check it.

Code that is made of expressions is a function with lemmas about it. Code that
changes things step by step is a class or a loop whose methods are proved equal
to a specification function, about which the lemmas speak.

## Files

- `ConfigProtocol.dfy`: the hot-reload protocol as a step system. Any number of
  admin handlers and gateway reloads interleave, one SQL statement or one
  in-memory action at a time. `ConfigInvariants.dfy` has what every reachable
  state keeps, `ConfigTheorems.dfy` the guarantees, `ConfigRuns.dfy` the concrete
  runs that show where they end. `ConfigTables.dfy` and `Models.dfy` are the rows
  and the statements; `ConfigCache.dfy` is the same code on mutable state, each
  method's effect proved to be a run of the protocol.
- `SlidingWindow.dfy`, `LimiterTheorems.dfy`, `RateLimiter.dfy`: the Lua script,
  its refinement to the plain history of calls, the bounds and the optimality
  that follow, and the service and middleware around it.
- `RouteMatcher.dfy`, `CacheKey.dfy`, `CacheControl.dfy`, `ResponseCache.dfy`,
  `Invalidation.dfy`: longest-prefix routing, cache keys, Cache-Control lines, the lookup and store hooks over a store
  with lifetimes, and flushing a route with SCAN and DEL.
- `Metrics.dfy`, `Percentile.dfy`: counters, buckets and samples against the
  history of recorded requests.
- `RetryPolicy.dfy`, `ProxyHandler.dfy`: the retry loop, the keyed breaker
  registry and the catch-all handler.
- `TraceContext.dfy`: the `traceparent` header of section 3.2 of W3C Trace
  Context.
- `Strings.dfy`, `Sorting.dfy`, `Arithmetic.dfy`: split and join, a canonical
  sort, `Math.ceil` of a quotient.

## Hypotheses

- One clock: gateways and Redis read the same nondecreasing time, and a key with
  a lifetime is gone from the instant it ends.
- One SQL statement and one Redis command or script are atomic steps.
- A `char` stands for one UTF-16 code unit.
- Latencies are integers and percentages exact rationals.
- The random part of a sorted-set member is a field of the call. Nothing is
  assumed about it except where a theorem asks for `DistinctMembers`.
- Fastify validates with its default options, which write the defaults of a JSON
  schema into the body.
- SCAN keeps its promise: every matching key that is present throughout a full
  iteration, and that nobody else stores or removes meanwhile, is returned.
- Calls that fail open because Redis is unreachable are not among the calls of a
  key; hooks that find Redis unreachable miss, or do not store.
- A repeated header of an upstream response arrives as several lines, one of a
  client request as one joined line; a directive is a comma-separated piece of a
  line, blanks around it dropped.

## What the proofs found

- A gateway is stale at the maximum version in two ways only
  (`ConfigTheorems.WhyStale`). Both happen, and a settled gateway stays as it is
  until another version is inserted (`ConfigTheorems.SettledStays`). First, `loadConfig` issues
  its three reads unordered (config-cache.ts:42-46), and a mutation may fall
  between the route read and the version read (`ConfigRuns.StaleAtMaximum`);
  reading the version first removes this way (`ConfigTheorems.VersionFirstIsFresh`).
  Second, the table write and the bump are separate statements without a
  transaction (config-version.repository.ts:28-35), so a bump that fails leaves a
  write that has no version (`ConfigRuns.FailedBumpIsStale`).
- The JSON schema of an update shares its properties with that of a creation,
  defaults included (route.schema.ts:122, route.schema.ts:151,
  route.schema.ts:182). So an update that does not name `strip_path` and `retries`
  resets them, although it is documented as partial
  (`ConfigCache.PartialUpdate` gives the exact condition). For the same reason a
  new route gets 0 retries, and the default of 2 in route.repository.ts:67 is
  never used.
- The timer does not wait for a slow reload (config-cache.ts:92-96), so an older
  load may install last and a gateway's version may go down
  (`ConfigRuns.OverlappingReloadsRegress`).
- Duplicate and out-of-order version numbers are harmless
  (`ConfigRuns.VersionsCollide`, `ConfigTheorems.WriteBeforeVersion`).
- A prefix that ends in `/`, the prefix `/` itself included, matches almost
  nothing (`RouteMatcher.TrailingSlashPrefix`).
- The cache hook obeys an upstream's no-store only if Cache-Control is one line
  that has the name in lower case (cache.middleware.ts:136-137). `No-Store`, or a
  no-store in a second line, is stored and served (`ResponseCache.ForbiddenIsServed`,
  with the exact condition in `ResponseCache.NoStoreIsObeyed`), although the
  repository's own README says it is not stored (line 341). A client's `No-Cache`
  is missed in the same way (`ResponseCache.BypassIsHeard`).
- `buildCacheKey` drops what follows a second `?`, so requests that differ only
  there share a response (`CacheKey.SecondQuestionMarkCollides`).
- Two admitted calls that draw the same random number in the same millisecond
  share one sorted-set member (`LimiterTheorems.CollisionOverAdmits`). Every bound
  on requests is the limit plus the number of such repetitions
  (`LimiterTheorems.AdmissionBound`, `LimiterTheorems.IntervalBound`).
- Routes named `constructor` or `__proto__` pass the name check but are not
  counted (`Metrics.RoutesAddUp` gives the exact condition).
- The comment in upstream-client.ts:13 says exhausted failures count against the
  breaker. A 5xx on every attempt resolves, so the breaker sees a success
  (`RetryPolicy.ExhaustedServerErrorResolves`).
- route.schema.ts:153 says that only idempotent methods are retried. The loop does
  not look at the method (`RetryPolicy.MethodIsIgnored`).
- An upstream status above 599 makes the reply throw after it was recorded, so the
  request is recorded twice and answered 502 (`ProxyHandler.RecordedStatus`).
- `normaliseToHex32` turns the empty request id into the all-zero trace id, which
  section 3.2.2.3 of W3C Trace Context calls invalid
  (`TraceContext.AllZeroTrace` gives the exact condition).
- `invalidateRoute` is said to be called by the admin API (cache.service.ts:76);
  nothing calls it.
- The request schemas drop `canary` and `cache_ttl_seconds`
  (route.controller.ts:8-25, policy.controller.ts:8-17), which the repository's
  own README shows as settable (lines 329 and 427). The model follows the
  schemas.
- A bare trailing `?` is lost on the way to the upstream
  (`ProxyHandler.ForwardedUnchanged`), and a timeout answers 504 but is recorded
  as 502 (proxy.routes.ts:119).

## Model

| member | source | states |
|---|---|---|
| ConfigTheorems.WriteBeforeVersion | src/repositories/config-version.repository.ts:27-37 | in every interleaving, if mutation m's bump inserts version v, then in every state that already stores a version >= v, inserted by whomever, m's table write is in the log; equal and out-of-order versions included |
| ConfigTheorems.NewClaim | src/repositories/config-version.repository.ts:27-33 | the only step that lets a mutation claim version v is a read of the stored maximum, which is v - 1 and stays it |
| ConfigTheorems.MaxCovers | src/controllers/route.controller.ts:75-76 | the write-then-bump order: every mutation that ever inserts a version up to the present maximum has its write in the present log |
| ConfigTheorems.CoveringHolds | src/services/router/config-cache.ts:41-57 | in every state each load in flight and each cache that carries a version has read a log that holds all mutations with bump versions up to it |
| ConfigTheorems.TriggeredReload | src/services/router/config-cache.ts:79-90 | a reload triggered by polled version p installs a config that records a version >= p and holds every mutation whose bump ever inserts a version <= p |
| ConfigTheorems.CacheNeverAhead | src/services/router/config-cache.ts:53-57 | no gateway records a version above the database maximum, in any state of any run |
| ConfigTheorems.VersionReadSawEverything | src/services/router/config-cache.ts:42-57 | once the latest mutation is bumped, a gateway at the maximum read that version when the log was already complete, whatever became of earlier bumps |
| ConfigTheorems.UnseenIsUnbumped | src/repositories/config-version.repository.ts:27-37 | what a gateway at the maximum had not seen when it read that version has inserted no version |
| ConfigTheorems.StaleIffLost | src/services/router/config-cache.ts:41-57 | in every reachable state, at the maximum or not, a gateway is stale exactly if some write is lost to it: it came after the route (or policy) read, and the enabled route (or policy) it left under some id is the one still stored and not the one read |
| ConfigTheorems.LastChange | src/repositories/route.repository.ts:51-119 | any view of the tables differs from what was read exactly if some write changed it for good |
| ConfigTheorems.WhyStale | src/services/router/config-cache.ts:41-57 | in every reachable state a gateway at the maximum is stale exactly if some write is lost to its cache; each lost write either overlapped the load that filled the cache, or came after it and has inserted no version, its bump being pending or failed |
| ConfigTheorems.StaleOnlyByOverlap | src/services/router/config-cache.ts:41-57 | once the latest mutation is bumped, a gateway at the maximum read its version when the log was complete, and is stale exactly if a write that overlapped its own load is lost to it |
| ConfigTheorems.VersionFirstIsFresh | src/services/router/config-cache.ts:41-57 | if every load reads the version no later than routes and policies, a gateway at the maximum holds exactly the enabled routes and policies once the latest mutation is bumped |
| ConfigTheorems.QuietReload | src/services/router/config-cache.ts:79-90 | from any state, a reload that runs while no mutation does leaves its gateway fresh and at the maximum, in whatever order its reads run |
| ConfigTheorems.SettledStays | src/services/router/config-cache.ts:79-96 | a gateway at the maximum with no load in flight keeps its cache, fresh or stale, through any number of polls until a new version is inserted |
| ConfigTheorems.LoneReloadAdvances | src/services/router/config-cache.ts:79-96 | a load, triggered or at startup, that no other installation on its gateway overtakes installs at least the maximum stored when it began: the recorded version does not fall, and a triggered load raises it |
| ConfigTheorems.FreshRoutesByDatabase | src/services/router/config-cache.ts:66-68 | a fresh gateway routes each path to a longest matching enabled route of the database, and nowhere exactly if there is none |
| ConfigTheorems.ReplayUntouched | src/repositories/route.repository.ts:76-119 | statements that touch no route leave the routes table of any earlier point as it was; the same for policies, which a route deletion touches |
| ConfigInvariants.InvHolds | src/services/router/config-cache.ts:41-90 | in every state of every run the tables are consistent, answers are those of the database at their read, and no version in flight or cached exceeds the maximum |
| ConfigInvariants.Grows | src/repositories/config-version.repository.ts:32-35 | the log of writes and the stored maximum only grow |
| ConfigInvariants.MaxVersionIsMaximum | src/repositories/config-version.repository.ts:15-20 | the maximum the theorems speak of is exactly the stored version that no row exceeds, and 0 for no rows |
| ConfigRuns.StaleAtMaximum | src/services/router/config-cache.ts:41-57 | for any two enabled routes there is a run after which everything is bumped, the gateway is settled at the maximum and the second route is missing from its cache |
| ConfigRuns.FailedBumpIsStale | src/controllers/route.controller.ts:75-76 | wherever a fresh, settled gateway stands, an insertion of an enabled route whose bump fails leaves it settled and stale with nothing more in flight |
| ConfigRuns.OverlappingReloadsRegress | src/services/router/config-cache.ts:92-96 | a run in which overlapping reloads take a gateway's recorded version from 2 to 1 |
| ConfigRuns.VersionsCollide | src/repositories/config-version.repository.ts:27-33 | a run in which two concurrent bumps insert the same version |
| ConfigTables.EffectKeepsConsistent | src/repositories/route.repository.ts:51-119 | every accepted statement keeps rows under their keys, route names and policy ids unique and each policy with a route |
| ConfigTables.PolicyMapHolds | src/services/router/config-cache.ts:48-51 | for rows with distinct route ids the map holds exactly the rows, each under its route id |
| ConfigTables.PolicyMapIsTable | src/services/router/config-cache.ts:48-51 | in whatever order the policies come, the map built from them is the policies table |
| ConfigCache.ConfigDatabase.GetLatest | src/repositories/config-version.repository.ts:15-20 | nothing exactly for an empty table, else a version that is stored and that no row exceeds |
| ConfigCache.ConfigDatabase.Bump | src/repositories/config-version.repository.ts:27-37 | one row is appended, one above the old maximum, and is the new maximum |
| ConfigCache.ConfigDatabase.Execute | src/repositories/policy.repository.ts:40-65 | a statement succeeds exactly if its row and constraints allow it; then the tables are its effect, else nothing changes; the tables stay the replay of the log |
| ConfigCache.ConfigDatabase.FindEnabled | src/repositories/route.repository.ts:44-49 | exactly the enabled rows, each once, longest prefix first |
| ConfigCache.ConfigDatabase.FindAllPolicies | src/repositories/policy.repository.ts:18-21 | exactly the policies, each once |
| ConfigCache.Place | src/repositories/route.repository.ts:44-47 | a row joins an ordered listing of other ids and leaves it ordered, without loss |
| ConfigCache.AdminApi.Mutate | src/controllers/route.controller.ts:75-76 | write, then bump unless the write did nothing; the effect is a run of the interleaved protocol |
| ConfigCache.AdminApi.CreateRoute | src/controllers/route.controller.ts:59-78 | 400 exactly for a body the schemas refuse, 409 for a taken name, 500 exactly for a prefix or host above 255 characters; else one version and one row, field by field: enabled, the body's id, name, prefix, host and port, strip_path or false, retries or 0, timeouts or 200 and 2000, no canary; and every listing of the enabled routes has it |
| ConfigCache.CreatedRow | src/repositories/route.repository.ts:51-74 | what the insert stores for a valid body, field by field |
| ConfigCache.BodyBounds | src/controllers/route.controller.ts:8-29 | a body is valid exactly if each key it has is within its bounds |
| ConfigCache.UuidGroups | src/schemas/common.schema.ts:12-23 | an id is accepted exactly if it is five groups of 8, 4, 4, 4 and 12 hexadecimal digits with dashes between; its canonical spelling is accepted and has no capitals |
| ConfigCache.CanonicalSpelling | src/schemas/common.schema.ts:12-23 | two ids are the same row exactly if they differ in letter case only |
| ConfigCache.AdminApi.UpdateRoute | src/controllers/route.controller.ts:80-98 | 400, 404, 500 for text too long and 409 for a taken name change nothing; else that row takes the keys of the filled-in body, keeps the others, and one version is inserted |
| ConfigCache.PartialUpdate | src/schemas/route.schema.ts:175-189 | an update takes every key the body names; it keeps everything else exactly if the body names strip_path and retries or the row has their defaults already |
| ConfigCache.AdminApi.DeleteRoute | src/controllers/route.controller.ts:100-111 | exactly that route and its policy go and one version is inserted, or 400 for an id that is no UUID or 404, and nothing changes |
| ConfigCache.AdminApi.CreatePolicy | src/controllers/policy.controller.ts:34-53 | 400 exactly for an empty route name or a rate limit that lacks a number or has one below 1, 404 exactly if no route has the name; else the policy of that route takes over the body, keeps its id or gets the generated one, gets no cache lifetime, and no other policy changes |
| ConfigCache.AdminApi.DeletePolicy | src/controllers/policy.controller.ts:55-66 | exactly the one policy with that id goes and one version is inserted, or 400 for an id that is no UUID or 404, and nothing changes |
| ConfigCache.BuildPolicyMap | src/services/router/config-cache.ts:48-51 | the loop builds the map of the rows, later rows winning |
| ConfigCache.Gateway.LoadConfig | src/services/router/config-cache.ts:41-63 | run undisturbed, the cache becomes the enabled routes, the policies table and the maximum version |
| ConfigCache.Gateway.CheckAndReload | src/services/router/config-cache.ts:79-90 | run undisturbed, it makes the cache the database's if the stored maximum is above the cached version, else it changes nothing; either way it is a run of the protocol |
| SlidingWindow.SetIsWindow | src/services/ratelimit/rate-limiter.service.ts:37-43 | at any later instant the pruned, expiring set holds exactly the members admitted in the window that ends there, with or without PEXPIRE |
| SlidingWindow.CallRefinesHistory | src/services/ratelimit/rate-limiter.service.ts:37-47 | a call is admitted exactly if fewer than `limit` members were admitted in its window; afterwards the key holds exactly that window; for an admitted call whose entry is new, its size plus `remaining` is the limit |
| SlidingWindow.MembersVersusCount | src/services/ratelimit/rate-limiter.service.ts:42 | the requests admitted in an interval are its members plus the repetitions of an entry |
| SlidingWindow.NoRepeats | src/services/ratelimit/rate-limiter.service.ts:42 | there is no repetition exactly if no two admitted calls of the interval have the same clock reading and draw |
| SlidingWindow.WindowShrinks | src/services/ratelimit/rate-limiter.service.ts:37 | what pruning at one instant leaves, pruned again later, is the later window |
| LimiterTheorems.ExpiryChangesNoAnswer | src/services/ratelimit/rate-limiter.service.ts:43 | without PEXPIRE every call gets the same verdict and the same `remaining` |
| LimiterTheorems.WindowBound | src/services/ratelimit/rate-limiter.service.ts:31-48 | after any number of calls and at every instant t, (t - 1000, t] holds at most as many admitted members as the limit in force at the last admission in it |
| LimiterTheorems.RefusedWhenFull | src/services/ratelimit/rate-limiter.service.ts:37-47 | a call is refused exactly if at least `limit` members were admitted in the 1000 milliseconds up to it |
| LimiterTheorems.OnePerSecond | src/services/ratelimit/rate-limiter.service.ts:66-68 | with limit 1 the first call on a key is admitted and the second exactly if 1000 milliseconds have passed |
| LimiterTheorems.ThirdIsRefused | src/services/ratelimit/rate-limiter.service.ts:39-44 | of three calls at one instant with limit 2 the third is admitted exactly if the first two drew the same number |
| LimiterTheorems.AdmissionBound | src/services/ratelimit/rate-limiter.service.ts:31-48 | after any number of calls and at every instant, the window holds at most the limit at its last admission plus the repetitions in it; with distinct entries among the admitted calls of the window, at most that limit |
| LimiterTheorems.LimiterObeys | src/services/ratelimit/rate-limiter.service.ts:39-44 | if the admitted calls of each window have distinct entries, the admissions obey the largest limit in every window |
| LimiterTheorems.IntervalBound | src/services/ratelimit/rate-limiter.service.ts:31-48 | any half-open interval of length L admits at most limit * ceil(L / 1000) requests plus the repetitions in it; none are added if the entries are distinct |
| LimiterTheorems.CollisionOverAdmits | src/services/ratelimit/rate-limiter.service.ts:42 | repetitions do happen: a limit of 2 admits three requests at one instant when two draw the same number |
| LimiterTheorems.LimiterIsEager | src/services/ratelimit/rate-limiter.service.ts:41-47 | a refusal means that at least `limit` requests were admitted in the window |
| LimiterTheorems.EagerIsOptimal | src/services/ratelimit/rate-limiter.service.ts:37-47 | a rule that refuses only when its window is full admits at least as many on every prefix as any rule with at most `limit` per window |
| LimiterTheorems.GreedyIsOptimal | src/services/ratelimit/rate-limiter.service.ts:37-47 | so does the limiter, for every nondecreasing sequence of requests |
| LimiterTheorems.NeverLater | src/services/ratelimit/rate-limiter.service.ts:37-47 | the limiter's j-th admission is never later than the j-th of any other such rule |
| LimiterTheorems.DeniedLeavesNoTrace | src/services/ratelimit/rate-limiter.service.ts:45-47 | every answer after a denied call is what it would have been without that call |
| LimiterTheorems.RetryAfterIsHonoured | src/middlewares/rate-limit.middleware.ts:59-67 | a denied client that waits the Retry-After seconds (section 10.2.3 of RFC 9110), with no other call on its key, is admitted for every limit >= 1; the header is at most 1, and 1 unless the reply is a window late |
| Arithmetic.CeilDivIsLeast | src/middlewares/rate-limit.middleware.ts:60 | `Math.ceil(a / b)` is the least integer whose product with b reaches a |
| RateLimiter.KeysSeparateClients | src/services/ratelimit/rate-limiter.service.ts:68 | two requests share a key exactly if route and client are the same, whatever the client id holds |
| RateLimiter.KeysApart | src/services/cache/cache.service.ts:22 | the limiter's keys and the cache's lie apart in the Redis they share |
| RateLimiter.RateLimiter.CheckRateLimit | src/services/ratelimit/rate-limiter.service.ts:60-95 | every key stays what the script makes of all calls on it; only the called key changes; the answer is the script's, `remaining` is not negative, the reset is 1000 milliseconds ahead, and without Redis the call is allowed and leaves no state |
| RateLimiter.RateLimiter.LiveKeyIsWindow | src/services/ratelimit/rate-limiter.service.ts:37-43 | in every valid state of the service, each key seen since its last call holds exactly the members admitted on it in the window that ends there |
| RateLimiter.RateLimiter.Limit | src/middlewares/rate-limit.middleware.ts:23-68 | exactly disabled, unmatched and internal requests pass unchecked, the internal paths spelled out and none under /api among them; the others use the key of route and user or address and the policy's burst or the default, are refused exactly if the script refuses, and Retry-After is the least number of seconds that reaches the reset |
| RouteMatcher.CoversIsSegmentPrefix | src/services/router/route-matcher.ts:27-32 | the text test of a prefix is the test that its `/`-segments begin the path's, for all strings |
| RouteMatcher.FirstHit | src/services/router/route-matcher.ts:26-40 | the scan returns the first covering route, and nothing exactly if there is none |
| RouteMatcher.MatchIsLongest | src/services/router/route-matcher.ts:25-41 | over a list ordered longest first it returns a longest segment-prefix match, of which every other match is a prefix, and nothing exactly if none matches |
| RouteMatcher.NestedPrefixes | src/services/router/route-matcher.ts:14 | two prefixes that cover one path are nested, segment by segment |
| RouteMatcher.TieOrderIrrelevant | src/repositories/route.repository.ts:44-49 | the chosen prefix does not depend on how the query orders ties |
| RouteMatcher.UpstreamPath | src/services/router/route-matcher.ts:34-38 | prefix and upstream path rebuild the path when it is stripped, the path is kept otherwise, and the upstream path starts with `/` if prefixes do |
| RouteMatcher.TrailingSlashPrefix | src/services/router/route-matcher.ts:31-32 | a prefix that ends in `/` covers exactly itself and paths with an empty segment there |
| RouteMatcher.CallersAgreeOnPath | src/routes/proxy.routes.ts:30-36 | `split('?')[0]` and the slice at `indexOf('?')` are the same path, for every url |
| RouteMatcher.InternalPaths | src/middlewares/rate-limit.middleware.ts:31-39 | exactly the three probes and the paths whose text begins with /docs or /admin are internal; no path under /api is |
| Strings.CodeUnitOrder | src/services/cache/cache.service.ts:34 | the default sort puts a string before another exactly if it is a prefix of it or has the smaller code unit where they first differ |
| CacheKey.SameKey | src/services/cache/cache.service.ts:28-38 | for all urls, two requests share a key exactly if route, method, path and the multiset of nonempty query pieces agree |
| CacheKey.SameKeySameResource | src/services/cache/cache.service.ts:28-38 | for urls with at most one `?`, exactly if route, method and requested resource agree |
| CacheKey.SecondQuestionMarkCollides | src/services/cache/cache.service.ts:30 | every url with a second `?` shares its key with the url cut there, which asks for something else |
| CacheKey.NormaliseIdempotent | src/services/cache/cache.service.ts:30-36 | normalising a url twice is normalising it once |
| CacheKey.NormaliseSplits | src/services/cache/cache.service.ts:30-36 | a normalised url splits back into the path and the sorted query |
| CacheKey.SortedQueryIsMultiset | src/services/cache/cache.service.ts:31-35 | the sorted query determines the multiset of pieces and no more |
| CacheKey.SortedPieces | src/services/cache/cache.service.ts:31-35 | filtering and sorting keep exactly the nonempty pieces, as often as they occur, in order, with no `&` or `?` in them |
| Sorting.SortCanonical | src/services/cache/cache.service.ts:34 | under a total order a sort forgets the order of its input and nothing else |
| Strings.SplitJoin | src/services/cache/cache.service.ts:35 | splitting what was joined gives the pieces back |
| Strings.JoinSplit | src/services/cache/cache.service.ts:32-35 | joining the pieces of a split gives the string back |
| ResponseCache.HitsAreFreshCopies | src/middlewares/cache.middleware.ts:56-106 | in every run, with configurations that may change at any time, each hit is for a GET or HEAD without Authorization value and returns status, body and kept headers of the last response stored under its key: an upstream status of 200 to 299 to an equivalent request without Authorization value, of age strictly below the lifetime of the policy or default in force for it, that did not forbid storing except in a second line or in other letters than lower case |
| ResponseCache.NoStoreIsObeyed | src/middlewares/cache.middleware.ts:135-137 | a successful response that forbids storing is stored exactly if Cache-Control came in several lines or its one line has the name nowhere in lower case; a line that spells the directive in lower case is always obeyed |
| ResponseCache.StoredIsServed | src/middlewares/cache.middleware.ts:86-166 | from an empty store, a storable response to any cacheable request is the reply to the next one exactly as long as less than its lifetime has passed |
| ResponseCache.ForbiddenIsServed | src/middlewares/cache.middleware.ts:135-137 | for every cacheable request a response with `No-Store`, or with `private` and `no-store` in two lines, forbids storing and is served to the next request |
| ResponseCache.BypassIsHeard | src/middlewares/cache.middleware.ts:24-33 | a client that spells no-cache or no-store in lower case bypasses the cache; one that asks without credentials does not, exactly if its line has neither name in lower case |
| CacheControl.SpelledIsFound | src/middlewares/cache.middleware.ts:137 | a directive spelled like the text searched for is found, wherever in the line and between whatever blanks |
| CacheControl.OtherLettersMissed | src/middlewares/cache.middleware.ts:137 | a line that is the directive in other letters has it (section 5.2 of RFC 9111) and is not found |
| CacheControl.TrimDropsBlanks | src/middlewares/cache.middleware.ts:137 | blanks and tabs around a directive, and nothing else, are dropped |
| CacheControl.TextOfLines | src/middlewares/cache.middleware.ts:152-153 | a kept header of one line is that line, of two lines both with a comma between |
| ResponseCache.RunInv | src/middlewares/cache.middleware.ts:120-166 | in every run each stored entry is the copy left by the last store under its key, and each hit in the log is justified by one |
| ResponseCache.SamePlanKey | src/middlewares/cache.middleware.ts:83-84 | requests that meet in the store, under whatever configurations, are GET or HEAD, have a route of the same name, the same method, path and query pieces, and no Authorization value; cookies are not examined |
| ResponseCache.PlannedWhen | src/middlewares/cache.middleware.ts:60-84 | a request is cacheable exactly if caching is on, it is a GET or HEAD without Authorization value and without no-cache or no-store in its Cache-Control, its path is not internal, it has a route, and the lifetime of the policy, or else the default, is positive |
| ResponseCache.StoredWhen | src/middlewares/cache.middleware.ts:132-165 | a reply is stored exactly for status 200 to 299, a body in hand and no no-store in a one-line Cache-Control, with Redis up; the entry ends 1000 milliseconds per second of its lifetime later |
| ResponseCache.CopyMeans | src/middlewares/cache.middleware.ts:149-161 | the copy has the status, the body, the time and exactly the six kept headers of the response |
| ResponseCache.HitLeavesNoTrace | src/middlewares/cache.middleware.ts:86-100 | take the arrival of a hit out of any run, and the store, all lifetimes, the pending requests and every other event stay the same: no chain of hits prolongs an entry |
| ResponseCache.CacheHooks.CacheMiddleware | src/middlewares/cache.middleware.ts:56-106 | the call is an arrival of the run; exactly the uncacheable requests bypass, every one with an Authorization value or another method than GET and HEAD among them; a hit is exactly a visible key, with the copy and its age in whole seconds, and is logged as served; only a miss writes key and lifetime into the context |
| ResponseCache.CacheHooks.CacheOnSend | src/middlewares/cache.middleware.ts:120-166 | the call is a reply of the run; it stores the copy under the context's key and lifetime for a storable reply, one of several Cache-Control lines included, and nothing for a context without a key |
| ResponseCache.CacheHooks.ServeRequest | src/app.ts:214-215 | a request through both hooks changes the store only if it missed; after a hit or a bypass the second hook stores nothing, whatever is sent and whenever |
| ResponseCache.CacheHooks.ServedIsFresh | src/middlewares/cache.middleware.ts:86-100 | in every valid state of the hooks each reply served from the store is a fresh copy, in the sense of the run theorem, of the last response stored under its key |
| ResponseCache.CacheHooks.Cacheable | src/middlewares/cache.middleware.ts:60-83 | the sequence of tests yields the plan of the request, with a positive lifetime, or none; none for a request with an Authorization value, and a plan only for GET or HEAD |
| Invalidation.PatternSelectsRoute | src/services/cache/cache.service.ts:80 | the glob pattern of a route selects exactly that route's keys, for names that extend each other as well |
| Invalidation.GlobLiteral | src/services/cache/cache.service.ts:80 | a literal stretch of a pattern matches itself and nothing else |
| Invalidation.RouteIsFlushed | src/services/cache/cache.service.ts:82-91 | after a full SCAN iteration no matching key that was present at the start is left, unless it was stored again |
| Invalidation.OthersUntouched | src/services/cache/cache.service.ts:82-91 | keys the pattern does not match fare as if nothing had been deleted |
| Invalidation.UntouchedAlone | src/services/cache/cache.service.ts:82-91 | a key nobody else touches keeps its entry through the calls |
| Invalidation.CacheStore.InvalidateRoute | src/services/cache/cache.service.ts:78-92 | the cursor loop ends after one full iteration with the route's keys gone, all others as they would have been, and those nobody else touched as they were |
| Percentile.NearestRank | src/services/metrics/metrics.service.ts:86-92 | the reported value is a sample that at least ceil(p n / 100) samples do not exceed and fewer than that lie below; the index is in range |
| Percentile.PercentilesMonotone | src/services/metrics/metrics.service.ts:104-106 | higher percentiles are no smaller |
| Percentile.CountSorted | src/services/metrics/metrics.service.ts:87 | the sorted copy has as many samples with any property as the samples |
| Sorting.SortSorts | src/services/metrics/metrics.service.ts:87 | the sort returns a rearrangement of its input, in order |
| Metrics.TallyCounts | src/services/metrics/metrics.service.ts:60-64 | each ordinary key counts its occurrences; `constructor` holds text once it occurs, `__proto__` nothing |
| Metrics.ClassCounts | src/services/metrics/metrics.service.ts:60-62 | for each digit d the cell of the class d counts exactly the requests of status 100 d to 100 d + 99, and is absent exactly if there are none |
| Metrics.RouteCounts | src/services/metrics/metrics.service.ts:64 | the cell of each ordinary route counts exactly its requests |
| Metrics.BucketCounts | src/services/metrics/metrics.service.ts:31-49 | there are exactly the ten buckets, and each counts the requests up to its bound |
| Metrics.TallySum | src/services/metrics/metrics.service.ts:61-64 | the numbers of a counter object add up to the increments of ordinary keys |
| Metrics.RoutesAddUp | src/services/metrics/metrics.service.ts:64 | requests per route add up to the total exactly if no request was for a route named `constructor` or `__proto__` |
| Metrics.ClassesAddUp | src/services/metrics/metrics.service.ts:60-62 | requests per status class always add up to the total |
| Metrics.BucketsMonotone | src/services/metrics/metrics.service.ts:69-73 | a larger bound counts at least as many latencies, and none more than all |
| Metrics.CountInBuckets | src/services/metrics/metrics.service.ts:69-73 | after the loop each bucket counts the latencies up to its bound, the new one included |
| Metrics.LastAppend | src/services/metrics/metrics.service.ts:76-79 | push and shift keep exactly the last samples in order |
| Metrics.Metrics.RecordRequest | src/services/metrics/metrics.service.ts:53-80 | total and latency count grow by one and the sum by the latency; tallies, buckets and samples stay those of the history since the last reset, now one longer |
| Metrics.Metrics.SetCircuitBreakerState | src/services/metrics/metrics.service.ts:82-84 | only the state of that upstream changes |
| Metrics.Metrics.GetMetrics | src/services/metrics/metrics.service.ts:86-112 | reports, over the history since the last reset, the number of requests of each status class, route and bucket; the samples are the last 1000 latencies in order; p50 <= p95 <= p99 are nearest-rank values of them, absent exactly if nothing was recorded |
| Metrics.Metrics.ResetMetrics | src/services/metrics/metrics.service.ts:115-119 | the history starts over and the breaker states stay |
| RetryPolicy.ExecuteWithRetry | src/services/proxy/retry-policy.ts:85-116 | for every sequence of outcomes and budget >= 0: the first non-retryable of the first budget + 1 outcomes, else the last of them, after exactly that many calls, with onRetry told 1..k and each cause; the trailing throw is reached exactly for a negative budget |
| RetryPolicy.DecisionIsUnique | src/services/proxy/retry-policy.ts:92-111 | at most one attempt can decide, so the contract of the loop leaves no choice |
| RetryPolicy.RetryableErrors | src/services/proxy/retry-policy.ts:18-48 | a thrown value is tried again exactly if it is an error with one of two names or one of nine codes |
| RetryPolicy.TimeBound | src/services/proxy/upstream-client.ts:31 | n attempts with a deadline each take at most n deadlines, and exactly that if each uses up its own |
| RetryPolicy.UpstreamRequest | src/services/proxy/upstream-client.ts:25-53 | at most retries + 1 attempts and deadlines; every attempt before the last resolved with a status of 500 or more or threw a retryable error, so a first answer below 500 is the only call; it rejects exactly if the last attempt threw, and returns a 5xx only when the budget is spent |
| RetryPolicy.ExhaustedServerErrorResolves | src/services/proxy/upstream-client.ts:33-34 | an upstream that answers 5xx to every attempt makes the wrapped call resolve after the whole budget |
| RetryPolicy.MethodIsIgnored | src/services/proxy/retry-policy.ts:92-111 | the documented rule that only GET, HEAD, PUT and DELETE are retried holds for a request, however the upstream answers, exactly if its method is one of them or its route allows no retry |
| RetryPolicy.RetriedWhen | src/services/proxy/retry-policy.ts:92-111 | a request is attempted again exactly if the budget allows it and the first attempt is retryable |
| ProxyHandler.UpstreamKeyInjective | src/services/proxy/circuit-breaker.ts:29-31 | two upstreams have the same key exactly if host and port agree, even if a host contains `:` |
| Strings.DecimalRoundTrip | src/services/proxy/circuit-breaker.ts:30 | the decimal text of a port determines it |
| ProxyHandler.Registry.GetBreaker | src/services/proxy/circuit-breaker.ts:71-77 | the breaker of that upstream, fresh on first use and the same ever after; no other breaker changes |
| ProxyHandler.Registry.Forward | src/routes/proxy.routes.ts:62-96 | one request adds its own upstream, stable or canary, to the calls of that upstream's breaker, or none if the breaker is open; a closed one yields the outcome of the deciding attempt |
| ProxyHandler.Registry.NeverShared | src/services/proxy/circuit-breaker.ts:27-31 | in every valid registry two upstreams share a breaker exactly if they are the same |
| ProxyHandler.Registry.OnlyItsUpstream | src/routes/proxy.routes.ts:80-96 | everything that went through the breaker of (host, port) went to that host and port |
| ProxyHandler.ForwardedUnchanged | src/routes/proxy.routes.ts:31-33 | without strip_path the string handed to the HTTP client as path and query is the client's url, except that a bare trailing `?` is dropped; what the client library's own url parsing does to dot segments is not part of this model |
| ProxyHandler.QueryKept | src/routes/proxy.routes.ts:31-33 | behind any upstream path the client's query follows from its `?` on, unless nothing follows that |
| ProxyHandler.ChosenMeans | src/services/proxy/traffic-splitter.ts:30-52 | the upstream is the canary exactly if canary releases are on, the route has one with a positive weight and the roll falls below it; else the route's own |
| ProxyHandler.RepliesAreRight | src/routes/proxy.routes.ts:98-152 | statuses 100 to 599 are sent as they are, an open breaker is 503, the four causes of a timeout 504, all else 502, each with what is recorded for it |
| ProxyHandler.MatchedAsByHooks | src/routes/proxy.routes.ts:30-36 | the handler matches the same route as the hooks before it |
| ProxyHandler.Handler.Handle | src/routes/proxy.routes.ts:28-154 | 404 exactly if nothing matches, and then nothing changes; otherwise the request reaches at most the upstream it was meant for, the canary exactly under its conditions, with its path and query, through that upstream's own breaker; an open breaker answers 503, a closed one gives the outcome of the deciding attempt, and reply and records are the right ones for it, spelled out by status and error |
| ProxyHandler.RecordedStatus | src/routes/proxy.routes.ts:99-152 | a request is recorded once and with the client's status exactly if it is not answered as a timeout and the upstream's status can be sent |
| TraceContext.ParsePrint | src/middlewares/trace-id.middleware.ts:100 | a printed header parses back to its trace and span id |
| TraceContext.ParsedIs | src/middlewares/trace-id.middleware.ts:20-27 | a well-formed header parses to its own fields |
| TraceContext.Accepted | src/middlewares/trace-id.middleware.ts:20-27 | the parser accepts exactly the headers of four dash-separated fields with version 00 and lengths 32 and 16 |
| TraceContext.WithoutDashesIsPieces | src/middlewares/trace-id.middleware.ts:34 | dropping the dashes is joining what lies between them |
| TraceContext.NormaliseKeepsFields | src/middlewares/trace-id.middleware.ts:33-35 | normalising is idempotent and leaves every 32-character id without dashes alone |
| TraceContext.NormaliseKeepsOrder | src/middlewares/trace-id.middleware.ts:33-35 | the id's own characters come first, and only zeroes are added behind them |
| TraceContext.NormaliseToHex32 | src/middlewares/trace-id.middleware.ts:33-35 | the result always has 32 characters and no dash |
| TraceContext.AllZeroTrace | src/middlewares/trace-id.middleware.ts:33-35 | the invalid all-zero trace id comes out exactly for ids whose first 32 characters apart from dashes are zeroes, the empty id included |
| TraceContext.EmittedParses | src/middlewares/trace-id.middleware.ts:72-100 | whichever of the four input cases applies, the header sent on parses to the resolved trace id and the new span id |
| TraceContext.TraceSurvivesHops | src/middlewares/trace-id.middleware.ts:72-100 | over any number of gateways the trace id stays what the first one resolved, and the parent id is the last gateway's span |
| TraceContext.Request.TraceId | src/middlewares/trace-id.middleware.ts:59-116 | a well-formed traceparent keeps its trace id, a malformed one or none at all gets the fresh id, and without one an incoming x-request-id is kept; the new traceparent, the B3 headers, the request id and the context agree with that |

## Left out

- opossum's rolling window and half-open timing: a breaker either rejects at once or calls the upstream once, as an input says.
- The Redis and PostgreSQL clients, undici, Fastify, Zod, pino, JWT and JWKS checks, environment loading, start and shutdown: I/O or library code.
- Base64 and JSON encoding of cached bodies: the entry holds the content itself.
- `Math.random` of the traffic splitter: the roll is an input.
- The upstream health loop, the admin key check, the error handler and the migration runner: single branches or I/O.
- ConfigCache.AdminApi.UpdateRoute: runs its read and its write undisturbed; in the interleaved protocol a lost update between them shows as the arbitrary row of `UpdateRoute`.
- ConfigCache.AdminApi.CreateRoute: timestamps, type coercion of the body and the `urn:uuid:` spelling of an id are not modelled.
- ConfigCache.ConfigDatabase.FindAllPolicies: leaves the creation order of the rows open; the map built from them does not depend on it.
- ConfigCache.ConfigDatabase.FindEnabled: measures a prefix in code units, where PostgreSQL counts characters.
- ConfigCache.ConfigDatabase.Bump: does not model the 32-bit range of the version column, nor the checksum.
- Metrics.Metrics.GetMetrics: leaves out the rounded average and the uptime, which are floating point and wall clock.
- Percentile.NearestRank: takes p n / 100 exactly, where the source divides in floating point first.
- RateLimiter.RateLimiter.CheckRateLimit: the requests-per-second argument is ignored, as in the source.
- Invalidation.CacheStore.InvalidateRoute: a Redis error in the middle, which is logged and ends the loop early, is not modelled.
- ProxyHandler.Handler.Handle: request and response bodies and headers are not modelled.
- CacheControl.SpelledIsFound: commas inside quoted directive values end a directive here.
