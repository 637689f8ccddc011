/** Flushing one route's cached responses with SCAN and DEL while requests keep
    storing and expiring other keys. */
module Invalidation {
  import opened Strings
  import opened Models
  import opened CacheKey
  import opened ResponseCache

  /** Redis glob matching for patterns without brackets and escapes. */
  predicate Glob(pattern: string, s: string)
    decreases |pattern| + |s|
  {
    if pattern == "" then s == ""
    else if pattern[0] == '*' then Glob(pattern[1..], s) || (s != "" && Glob(pattern, s[1..]))
    else s != "" && (pattern[0] == '?' || pattern[0] == s[0]) && Glob(pattern[1..], s[1..])
  }

  function RoutePattern(routeName: string): string {
    KEY_PREFIX + routeName + ":*"
  }

  predicate Literal(p: string) { '*' !in p && '?' !in p }

  lemma {:induction false} GlobLiteral(p: string, rest: string, s: string)
    requires Literal(p)
    ensures Glob(p + rest, s) <==> p <= s && Glob(rest, s[|p|..])
  {
    if p == "" {
      assert p + rest == rest && s[0..] == s;
    } else if s != "" && p[0] == s[0] {
      GlobLiteral(p[1..], rest, s[1..]);
      assert (p + rest)[1..] == p[1..] + rest;
      assert p <= s <==> p[1..] <= s[1..];
      if p <= s {
        assert s[1..][|p| - 1..] == s[|p|..];
      }
    }
  }

  lemma {:induction false} StarMatchesAll(s: string)
    ensures Glob("*", s)
  {
    if s == "" {
      assert Glob("*"[1..], s);
    } else {
      StarMatchesAll(s[1..]);
    }
  }

  /** The pattern of a route selects the keys of that route and of no other,
      names that extend each other included. */
  lemma PatternSelectsRoute(name: string, other: string, verb: string, url: string)
    requires ValidName(name) && ValidName(other)
    ensures Glob(RoutePattern(name), BuildCacheKey(other, verb, url)) <==> name == other
  {
    var rest := verb + [':'] + Normalise(url);
    KeyShape(other, verb, url);
    PatternSelects(name, other, rest);
  }

  lemma PatternSelects(a: string, b: string, rest: string)
    requires ValidName(a) && ValidName(b)
    ensures Glob(RoutePattern(a), KEY_PREFIX + (b + [':'] + rest)) <==> a == b
  {
    var key, head := KEY_PREFIX + (b + [':'] + rest), KEY_PREFIX + (a + [':']);
    assert RoutePattern(a) == head + "*";
    GlobLiteral(head, "*", key);
    if head <= key {
      var x := key[|head|..];
      StarMatchesAll(x);
      assert key == KEY_PREFIX + (a + [':'] + x);
      SamePrefix(KEY_PREFIX, a + [':'] + x, b + [':'] + rest);
      FirstSeparator(a, x, b, rest, ':');
    } else {
      assert key == (KEY_PREFIX + (b + [':'])) + rest;
    }
  }

  /** One SCAN call: what other clients stored and what expired since the last
      one, and the cursor and keys it answers. */
  datatype Scan = Scan(arrivals: map<string, Entry>, gone: set<string>, cursor: string, keys: seq<string>)

  function Seen(store: map<string, Entry>, call: Scan): map<string, Entry> {
    (store - call.gone) + call.arrivals
  }

  function Deleted(store: map<string, Entry>, keys: seq<string>): map<string, Entry> {
    store - set k | k in keys
  }

  /** The store after some calls and the deletions that follow each. */
  function Flushed(store: map<string, Entry>, calls: seq<Scan>): map<string, Entry> {
    if calls == [] then store
    else
      var last := calls[|calls| - 1];
      Deleted(Seen(Flushed(store, calls[..|calls| - 1]), last), last.keys)
  }

  /** The store had nothing been deleted. */
  function Untouched(store: map<string, Entry>, calls: seq<Scan>): map<string, Entry> {
    if calls == [] then store
    else Seen(Untouched(store, calls[..|calls| - 1]), calls[|calls| - 1])
  }

  /** One full iteration: only its last cursor is "0". */
  predicate FullIteration(calls: seq<Scan>) {
    && calls != [] && calls[|calls| - 1].cursor == "0"
    && forall i :: 0 <= i < |calls| - 1 ==> calls[i].cursor != "0"
  }

  /** No call saw the key stored or removed by someone else. */
  predicate LeftAlone(calls: seq<Scan>, k: string) {
    forall i :: 0 <= i < |calls| ==> k !in calls[i].arrivals && k !in calls[i].gone
  }

  /** What SCAN promises: only matching keys, and at least once every matching
      key that is present from the first call to the last. */
  ghost predicate ScanGuarantee(store: map<string, Entry>, calls: seq<Scan>, pattern: string) {
    && (forall i, k :: 0 <= i < |calls| && k in calls[i].keys ==> Glob(pattern, k))
    && (forall k :: Glob(pattern, k) && LeftAlone(calls, k)
          && (forall i :: 0 <= i < |calls| ==> k in Seen(Flushed(store, calls[..i]), calls[i]))
          ==> exists i :: 0 <= i < |calls| && k in calls[i].keys)
  }

  lemma FlushedStep(store: map<string, Entry>, calls: seq<Scan>, i: nat)
    requires i < |calls|
    ensures Flushed(store, calls[..i + 1])
              == Deleted(Seen(Flushed(store, calls[..i]), calls[i]), calls[i].keys)
  {
    assert calls[..i + 1][..i] == calls[..i];
  }

  /** A key that is gone and not stored again stays gone. */
  lemma {:induction false} StaysGone(store: map<string, Entry>, calls: seq<Scan>, i: nat, j: nat, k: string)
    requires i <= j <= |calls|
    requires forall n :: 0 <= n < |calls| ==> k !in calls[n].arrivals
    requires k !in Flushed(store, calls[..i])
    ensures k !in Flushed(store, calls[..j])
  {
    hide Flushed;
    if i < j {
      StaysGone(store, calls, i, j - 1, k);
      FlushedStep(store, calls, j - 1);
    }
  }

  /** After a full iteration no key of the route that was present at the start
      is left, unless it was stored again meanwhile. */
  lemma RouteIsFlushed(store: map<string, Entry>, calls: seq<Scan>, pattern: string, k: string)
    requires ScanGuarantee(store, calls, pattern) && Glob(pattern, k)
    requires forall n :: 0 <= n < |calls| ==> k !in calls[n].arrivals
    ensures calls != [] ==> k !in Flushed(store, calls)
  {
    hide Glob, Flushed;
    if calls != [] && k in Flushed(store, calls) {
      assert calls[..|calls|] == calls;
      forall i | 0 <= i < |calls|
        ensures k in Seen(Flushed(store, calls[..i]), calls[i])
        ensures k !in calls[i].keys && k !in calls[i].gone
      {
        FlushedStep(store, calls, i);
        if k !in Flushed(store, calls[..i + 1]) {
          StaysGone(store, calls, i + 1, |calls|, k);
        }
      }
    }
  }

  /** Keys the pattern does not match fare as if nothing had been deleted. */
  lemma {:induction false} OthersUntouched(store: map<string, Entry>, calls: seq<Scan>, pattern: string, k: string)
    requires forall i, key :: 0 <= i < |calls| && key in calls[i].keys ==> Glob(pattern, key)
    requires !Glob(pattern, k)
    ensures k in Flushed(store, calls) <==> k in Untouched(store, calls)
    ensures k in Flushed(store, calls) ==> Flushed(store, calls)[k] == Untouched(store, calls)[k]
  {
    if calls != [] {
      var init := calls[..|calls| - 1];
      forall i, key | 0 <= i < |init| && key in init[i].keys
        ensures Glob(pattern, key)
      {
        assert init[i] == calls[i];
      }
      OthersUntouched(store, init, pattern, k);
    }
  }

  /** What one call sees, key by key: what was stored meanwhile, and what was
      there and has not gone. */
  lemma SeenMeans(store: map<string, Entry>, call: Scan, k: string)
    ensures k in Seen(store, call) <==> k in call.arrivals || (k in store && k !in call.gone)
    ensures k in call.arrivals ==> Seen(store, call)[k] == call.arrivals[k]
    ensures k in store && k !in call.gone && k !in call.arrivals ==> Seen(store, call)[k] == store[k]
  {
  }

  /** A key nobody else touches is, but for the deletions, what it was. */
  lemma {:induction false} UntouchedAlone(store: map<string, Entry>, calls: seq<Scan>, k: string)
    requires LeftAlone(calls, k)
    ensures k in Untouched(store, calls) <==> k in store
    ensures k in store ==> Untouched(store, calls)[k] == store[k]
  {
    if calls != [] {
      var init, last := calls[..|calls| - 1], calls[|calls| - 1];
      assert forall i :: 0 <= i < |init| ==> init[i] == calls[i];
      UntouchedAlone(store, init, k);
      SeenMeans(Untouched(store, init), last, k);
    }
  }

  lemma WhatIsLeft(store: map<string, Entry>, calls: seq<Scan>, pattern: string)
    requires calls != [] && ScanGuarantee(store, calls, pattern)
    ensures forall k :: Glob(pattern, k) && (forall n :: 0 <= n < |calls| ==> k !in calls[n].arrivals)
              ==> k !in Flushed(store, calls)
    ensures forall k :: !Glob(pattern, k) ==>
              && (k in Flushed(store, calls) <==> k in Untouched(store, calls))
              && (k in Flushed(store, calls) ==> Flushed(store, calls)[k] == Untouched(store, calls)[k])
    ensures forall k :: !Glob(pattern, k) && LeftAlone(calls, k) ==>
              && (k in Flushed(store, calls) <==> k in store)
              && (k in store ==> Flushed(store, calls)[k] == store[k])
  {
    forall k | LeftAlone(calls, k) {
      UntouchedAlone(store, calls, k);
    }
    hide Glob, Flushed, Untouched;
    forall k | Glob(pattern, k) && (forall n :: 0 <= n < |calls| ==> k !in calls[n].arrivals)
      ensures k !in Flushed(store, calls)
    {
      RouteIsFlushed(store, calls, pattern, k);
    }
    forall k | !Glob(pattern, k)
      ensures k in Flushed(store, calls) <==> k in Untouched(store, calls)
      ensures k in Flushed(store, calls) ==> Flushed(store, calls)[k] == Untouched(store, calls)[k]
    {
      OthersUntouched(store, calls, pattern, k);
    }
  }

  class CacheStore {
    var store: map<string, Entry>

    constructor (store: map<string, Entry>)
      ensures this.store == store
    {
      this.store := store;
    }

    /** `invalidateRoute`: scan and delete until the cursor returns to "0". */
    method InvalidateRoute(routeName: string, calls: seq<Scan>)
      requires FullIteration(calls) && ScanGuarantee(store, calls, RoutePattern(routeName))
      modifies this
      ensures store == Flushed(old(store), calls)
      ensures forall k :: Glob(RoutePattern(routeName), k) && (forall n :: 0 <= n < |calls| ==> k !in calls[n].arrivals)
                ==> k !in store
      ensures forall k :: !Glob(RoutePattern(routeName), k) ==>
                && (k in store <==> k in Untouched(old(store), calls))
                && (k in store ==> store[k] == Untouched(old(store), calls)[k])
      ensures forall k :: !Glob(RoutePattern(routeName), k) && LeftAlone(calls, k) ==>
                && (k in store <==> k in old(store))
                && (k in store ==> store[k] == old(store)[k])
    {
      hide Glob, RoutePattern, Untouched, ScanGuarantee;
      var cursor := "0";
      var n := 0;
      var again := true;
      while again
        invariant 0 <= n <= |calls|
        invariant store == Flushed(old(store), calls[..n])
        invariant again <==> n == 0 || cursor != "0"
        invariant n > 0 ==> cursor == calls[n - 1].cursor
        decreases |calls| - n, again
      {
        FlushedStep(old(store), calls, n);
        store := Seen(store, calls[n]);
        cursor := calls[n].cursor;
        if |calls[n].keys| > 0 {
          store := Deleted(store, calls[n].keys);
        } else {
          assert Deleted(store, calls[n].keys) == store;
        }
        n := n + 1;
        again := cursor != "0";
      }
      assert n == |calls| && calls[..n] == calls;
      WhatIsLeft(old(store), calls, RoutePattern(routeName));
    }
  }
}
