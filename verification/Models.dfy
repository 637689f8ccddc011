/** Rows of the configuration tables, as the gateway maps them. */
module Models {
  import opened Strings

  datatype Route = Route(
    id: string,
    name: string,
    pathPrefix: string,
    upstreamHost: string,
    upstreamPort: nat,
    stripPath: bool,
    connectTimeoutMs: nat,
    requestTimeoutMs: nat,
    retries: int,
    enabled: bool,
    canaryHost: Option<string>,
    canaryPort: Option<nat>,
    canaryWeight: Option<int>)

  datatype Policy = Policy(
    id: string,
    routeId: string,
    authRequired: bool,
    rateLimitRps: Option<int>,
    rateLimitBurst: Option<int>,
    cacheTtlSeconds: Option<int>)

  /** The names the admin API accepts for a route: `^[a-z0-9-_]+$`. */
  predicate ValidName(name: string) {
    && name != ""
    && forall c :: c in name ==> 'a' <= c <= 'z' || '0' <= c <= '9' || c == '-' || c == '_'
  }
}
