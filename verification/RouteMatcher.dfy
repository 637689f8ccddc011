/** The segment-aware prefix matcher and the order it relies on. */
module RouteMatcher {
  import opened Strings
  import opened Models

  datatype MatchResult = MatchResult(route: Route, upstreamPath: string)

  /** The test of one route: the prefix starts the path and what follows it is
      empty or begins a new segment. */
  predicate Covers(prefix: string, path: string) {
    && prefix <= path
    && (path[|prefix|..] == "" || path[|prefix|] == '/')
  }

  /** First hit of the scan over the configured routes. */
  function MatchRoute(path: string, routes: seq<Route>): Option<MatchResult> {
    if routes == [] then None
    else if Covers(routes[0].pathPrefix, path) then
      var afterPrefix := path[|routes[0].pathPrefix|..];
      var upstreamPath :=
        if routes[0].stripPath then (if afterPrefix != "" then afterPrefix else "/") else path;
      Some(MatchResult(routes[0], upstreamPath))
    else MatchRoute(path, routes[1..])
  }

  /** What a match means: the prefix's segments start the path's segments. */
  predicate SegmentPrefix(prefix: string, path: string) {
    Split(prefix, '/') <= Split(path, '/')
  }

  predicate LongestFirst(routes: seq<Route>) {
    forall i, j :: 0 <= i < j < |routes| ==> |routes[i].pathPrefix| >= |routes[j].pathPrefix|
  }

  /** The string test is the segment test, for every prefix and every path. */
  lemma CoversIsSegmentPrefix(prefix: string, path: string)
    ensures Covers(prefix, path) <==> SegmentPrefix(prefix, path)
  {
    if Covers(prefix, path) {
      var rest := path[|prefix|..];
      if rest == "" {
        assert path == prefix;
      } else {
        assert path == prefix + ['/'] + rest[1..];
        SplitConcat(prefix, '/', rest[1..]);
      }
    }
    if SegmentPrefix(prefix, path) {
      var head, whole := Split(prefix, '/'), Split(path, '/');
      var tail := whole[|head|..];
      assert whole == head + tail;
      JoinSplit(prefix, '/');
      JoinSplit(path, '/');
      if tail != [] {
        JoinConcat(head, tail, '/');
        assert path == prefix + ['/'] + Join(tail, '/');
      } else {
        assert whole == head;
      }
    }
  }

  /** The scan returns the first covering route, if there is one. */
  lemma {:induction false} FirstHit(path: string, routes: seq<Route>)
    ensures var m := MatchRoute(path, routes);
      && (m.None? <==> forall r :: r in routes ==> !Covers(r.pathPrefix, path))
      && (m.Some? ==> exists i :: 0 <= i < |routes| && routes[i] == m.value.route
                        && Covers(routes[i].pathPrefix, path)
                        && forall j :: 0 <= j < i ==> !Covers(routes[j].pathPrefix, path))
  {
    if routes != [] {
      if Covers(routes[0].pathPrefix, path) {
        assert routes[0] in routes;
      } else {
        FirstHit(path, routes[1..]);
        assert routes == [routes[0]] + routes[1..];
        var m := MatchRoute(path, routes[1..]);
        if m.Some? {
          var i :| 0 <= i < |routes[1..]| && routes[1..][i] == m.value.route
            && Covers(routes[1..][i].pathPrefix, path)
            && forall j :: 0 <= j < i ==> !Covers(routes[1..][j].pathPrefix, path);
          forall j | 0 <= j < i + 1
            ensures !Covers(routes[j].pathPrefix, path)
          {
            if j > 0 {
              assert routes[1..][j - 1] == routes[j];
            }
          }
          assert routes[i + 1] == m.value.route;
        }
      }
    }
  }

  /** Over a list ordered longest prefix first, the scan returns a longest
      segment-prefix match, and nothing exactly when no route matches: every
      other match is a prefix of the chosen one. */
  lemma MatchIsLongest(path: string, routes: seq<Route>)
    requires LongestFirst(routes)
    ensures var m := MatchRoute(path, routes);
      && (m.None? <==> forall r :: r in routes ==> !SegmentPrefix(r.pathPrefix, path))
      && (m.Some? ==>
            && m.value.route in routes
            && SegmentPrefix(m.value.route.pathPrefix, path)
            && forall r :: r in routes && SegmentPrefix(r.pathPrefix, path)
                 ==> r.pathPrefix <= m.value.route.pathPrefix
                     && Split(r.pathPrefix, '/') <= Split(m.value.route.pathPrefix, '/'))
  {
    hide MatchRoute, Covers, SegmentPrefix, Split;
    FirstHit(path, routes);
    forall r | r in routes
      ensures Covers(r.pathPrefix, path) <==> SegmentPrefix(r.pathPrefix, path)
    {
      CoversIsSegmentPrefix(r.pathPrefix, path);
    }
    var m := MatchRoute(path, routes);
    if m.Some? {
      var i :| 0 <= i < |routes| && routes[i] == m.value.route
        && Covers(routes[i].pathPrefix, path)
        && forall j :: 0 <= j < i ==> !Covers(routes[j].pathPrefix, path);
      var chosen := m.value.route.pathPrefix;
      CoversIsSegmentPrefix(chosen, path);
      forall r | r in routes && SegmentPrefix(r.pathPrefix, path)
        ensures r.pathPrefix <= chosen && Split(r.pathPrefix, '/') <= Split(chosen, '/')
      {
        var k :| 0 <= k < |routes| && routes[k] == r;
        assert |r.pathPrefix| <= |chosen|;
        NestedPrefixes(r.pathPrefix, chosen, path);
      }
    }
  }

  /** Two prefixes covering the same path are nested, the shorter in the longer. */
  lemma NestedPrefixes(short: string, long: string, path: string)
    requires Covers(short, path) && Covers(long, path) && |short| <= |long|
    ensures Covers(short, long) && SegmentPrefix(short, long)
  {
    assert path[..|short|] == short && path[..|long|] == long;
    assert long[..|short|] == short;
    if |short| < |long| {
      assert long[|short|] == path[|short|];
    }
    CoversIsSegmentPrefix(short, long);
  }

  /** Routes of equal length may come back in any order: the prefix chosen for a
      path does not depend on it. */
  lemma TieOrderIrrelevant(path: string, a: seq<Route>, b: seq<Route>)
    requires LongestFirst(a) && LongestFirst(b)
    requires forall r :: r in a <==> r in b
    ensures MatchRoute(path, a).Some? <==> MatchRoute(path, b).Some?
    ensures MatchRoute(path, a).Some? ==>
              MatchRoute(path, a).value.route.pathPrefix == MatchRoute(path, b).value.route.pathPrefix
  {
    MatchIsLongest(path, a);
    MatchIsLongest(path, b);
  }

  /** The upstream path: the whole path, or what follows the prefix with "/" for
      nothing; either way it starts with "/" when prefixes do. */
  lemma {:induction false} UpstreamPath(path: string, routes: seq<Route>)
    ensures MatchRoute(path, routes).Some? ==>
              var MatchResult(route, upstream) := MatchRoute(path, routes).value;
              && route in routes
              && (!route.stripPath ==> upstream == path)
              && (route.stripPath && path != route.pathPrefix ==> route.pathPrefix + upstream == path)
              && (route.stripPath && path == route.pathPrefix ==> upstream == "/")
              && ("/" <= route.pathPrefix ==> "/" <= upstream)
  {
    if routes != [] && !Covers(routes[0].pathPrefix, path) {
      UpstreamPath(path, routes[1..]);
    }
  }

  /** A prefix written with a trailing slash, "/" itself included, covers only
      itself and paths with an empty segment there: "/" is no catch-all. */
  lemma TrailingSlashPrefix(q: string, path: string)
    ensures Covers(q + "/", path) <==> path == q + "/" || q + "//" <= path
    ensures forall c, rest :: c != '/' && path == q + "/" + [c] + rest ==> !Covers(q + "/", path)
  {
    var p := q + "/";
    assert q + "//" == p + "/";
    if Covers(p, path) && path != p {
      assert path[..|p|] == p && path[|p|] == '/';
      assert path[..|p| + 1] == p + "/";
    }
    if q + "//" <= path {
      assert path[|p|] == (q + "//")[|p|] == '/';
      assert path[..|p|] == (q + "//")[..|p|] == p;
    }
    forall c, rest | c != '/' && path == q + "/" + [c] + rest
      ensures !Covers(p, path)
    {
      assert path[|p|] == c;
    }
  }

  /** `url.split('?')[0]`, the path the hooks work on. */
  function PathOf(url: string): string { Split(url, '?')[0] }

  /** `url.indexOf('?')`, with the length of the url for -1. */
  function QueryIndex(url: string): (i: nat)
    ensures i <= |url|
    ensures '?' !in url[..i]
    ensures i < |url| ==> url[i] == '?'
  {
    if url == "" || url[0] == '?' then 0
    else
      var i := QueryIndex(url[1..]);
      assert url[..i + 1] == [url[0]] + url[1..][..i];
      i + 1
  }

  /** The hooks cut the url at `split('?')[0]`, the proxy handler at
      `indexOf('?')`: both hand the matcher the same path. */
  lemma CallersAgreeOnPath(url: string)
    ensures PathOf(url) == url[..QueryIndex(url)]
  {
    var i := QueryIndex(url);
    SplitWhole(url[..i], '?');
    if i < |url| {
      SplitConcat(url[..i], '?', url[i + 1..]);
      assert url == url[..i] + ['?'] + url[i + 1..];
    } else {
      assert url[..i] == url;
    }
  }

  /** Paths the rate limiter and the cache leave alone: prefixes as text, so
      "/administrator" is one of them. */
  predicate InternalPath(path: string) {
    path == "/healthz" || path == "/readyz" || path == "/metrics" || "/docs" <= path || "/admin" <= path
  }

  /** Exactly which: the three probes, and whatever begins with the five letters
      of "/docs" or the six of "/admin". A path under "/api" is not among them. */
  lemma InternalPaths(path: string)
    ensures InternalPath(path) <==>
              || path == "/healthz" || path == "/readyz" || path == "/metrics"
              || (|path| >= 5 && path[..5] == "/docs")
              || (|path| >= 6 && path[..6] == "/admin")
    ensures "/api" <= path ==> !InternalPath(path)
  {
    if "/api" <= path {
      assert path[1] == 'a' && path[2] == 'p';
      assert "/admin"[2] == 'd' && "/docs"[1] == 'd' && "/healthz"[1] == 'h' && "/readyz"[1] == 'r';
      assert "/metrics"[1] == 'm';
    }
  }
}
