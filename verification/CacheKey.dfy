/** The cache key of a request: which requests share one. */
module CacheKey {
  import opened Strings
  import opened Sorting
  import opened RouteMatcher

  const KEY_PREFIX := "gw:cache:"

  /** `.filter(Boolean)`. */
  function NonEmpty(parts: seq<string>): (kept: seq<string>)
    ensures forall p :: p in kept <==> p in parts && p != ""
    ensures forall p :: p != "" ==> multiset(kept)[p] == multiset(parts)[p]
  {
    if parts == [] then []
    else
      assert parts == [parts[0]] + parts[1..];
      (if parts[0] == "" then [] else [parts[0]]) + NonEmpty(parts[1..])
  }

  /** The second item of `url.split('?')`: what follows a second '?' is dropped. */
  function QueryOf(url: string): string {
    if |Split(url, '?')| > 1 then Split(url, '?')[1] else ""
  }

  function Pieces(url: string): seq<string> {
    NonEmpty(Split(QueryOf(url), '&'))
  }

  function SortedQuery(url: string): string {
    Join(Sort(Pieces(url), CodeUnitLeq), '&')
  }

  function Normalise(url: string): string {
    if SortedQuery(url) != "" then PathOf(url) + "?" + SortedQuery(url) else PathOf(url)
  }

  function BuildCacheKey(routeName: string, verb: string, url: string): string {
    KEY_PREFIX + routeName + ":" + verb + ":" + Normalise(url)
  }

  lemma CodeUnitOrderIsTotal()
    ensures TotalOrder(CodeUnitLeq)
  {
    forall x, y
      ensures CodeUnitLeq(x, y) || CodeUnitLeq(y, x)
    {
      CodeUnitConnected(x, y);
    }
    forall x, y | CodeUnitLeq(x, y) && CodeUnitLeq(y, x)
      ensures x == y
    {
      CodeUnitAntisymmetric(x, y);
    }
    forall x, y, z | CodeUnitLeq(x, y) && CodeUnitLeq(y, z)
      ensures CodeUnitLeq(x, z)
    {
      CodeUnitTransitive(x, y, z);
    }
  }

  /** The pieces in order: nonempty, free of '&' and '?', and the same for the
      same multiset of pieces. */
  lemma SortedPieces(url: string)
    ensures var sorted := Sort(Pieces(url), CodeUnitLeq);
            && multiset(sorted) == multiset(Pieces(url)) && SortedBy(sorted, CodeUnitLeq)
            && (forall p :: p in sorted ==> p != "" && '&' !in p && '?' !in p)
  {
    CodeUnitOrderIsTotal();
    SortSorts(Pieces(url), CodeUnitLeq);
    var sorted := Sort(Pieces(url), CodeUnitLeq);
    forall p | p in sorted
      ensures p != "" && '&' !in p && '?' !in p
    {
      assert p in multiset(sorted) && p in Pieces(url);
      PieceOfQuery(QueryOf(url), '&', p, '?');
    }
  }

  /** A piece holds no character the whole lacks. */
  lemma {:induction false} PieceOfQuery(s: string, sep: char, p: string, absent: char)
    requires p in Split(s, sep) && absent !in s
    ensures absent !in p
  {
    if s != "" {
      var rest := Split(s[1..], sep);
      forall q | q in rest
        ensures absent !in q
      {
        PieceOfQuery(s[1..], sep, q, absent);
      }
    }
  }

  lemma {:induction false} JoinFree(parts: seq<string>, sep: char, absent: char)
    requires (forall p :: p in parts ==> absent !in p) && sep != absent
    ensures absent !in Join(parts, sep)
  {
    if |parts| > 1 {
      JoinFree(parts[1..], sep, absent);
    }
  }

  /** The sorted query determines the multiset of pieces and no more. */
  lemma SortedQueryIsMultiset(u: string, v: string)
    ensures SortedQuery(u) == SortedQuery(v) <==> multiset(Pieces(u)) == multiset(Pieces(v))
  {
    CodeUnitOrderIsTotal();
    var a, b := Sort(Pieces(u), CodeUnitLeq), Sort(Pieces(v), CodeUnitLeq);
    SortedPieces(u);
    SortedPieces(v);
    SortCanonical(Pieces(u), Pieces(v), CodeUnitLeq);
    if SortedQuery(u) == SortedQuery(v) {
      JoinEmptiness(a, '&');
      JoinEmptiness(b, '&');
      if a != [] && b != [] {
        SplitJoin(a, '&');
        SplitJoin(b, '&');
      }
      assert a == b;
    }
  }

  lemma JoinEmptiness(parts: seq<string>, sep: char)
    requires forall p :: p in parts ==> p != ""
    ensures Join(parts, sep) == "" <==> parts == []
  {
    if parts != [] {
      assert parts[0] in parts;
    }
  }

  lemma SortedQueryFree(url: string)
    ensures '?' !in SortedQuery(url)
  {
    SortedPieces(url);
    JoinFree(Sort(Pieces(url), CodeUnitLeq), '&', '?');
  }

  /** A normalised url splits back into its path and its sorted query. */
  lemma NormaliseSplits(url: string)
    ensures PathOf(Normalise(url)) == PathOf(url)
    ensures QueryOf(Normalise(url)) == SortedQuery(url)
  {
    hide Split, SortedQuery;
    var path, qs := PathOf(url), SortedQuery(url);
    SortedQueryFree(url);
    SplitWhole(path, '?');
    if qs != "" {
      SplitConcat(path, '?', qs);
      SplitWhole(qs, '?');
      assert path + "?" + qs == path + ['?'] + qs;
    }
  }

  /** Exactly which requests share a cache key, for all urls: those with the
      same route, method, path and multiset of nonempty query pieces. */
  lemma SameKey(r1: string, m1: string, u1: string, r2: string, m2: string, u2: string)
    requires ':' !in r1 && ':' !in r2 && ':' !in m1 && ':' !in m2
    ensures BuildCacheKey(r1, m1, u1) == BuildCacheKey(r2, m2, u2) <==>
              r1 == r2 && m1 == m2 && PathOf(u1) == PathOf(u2) && multiset(Pieces(u1)) == multiset(Pieces(u2))
  {
    SortedQueryIsMultiset(u1, u2);
    if BuildCacheKey(r1, m1, u1) == BuildCacheKey(r2, m2, u2) {
      KeyParts(r1, m1, u1, r2, m2, u2);
      NormaliseSplits(u1);
      NormaliseSplits(u2);
    }
  }

  lemma KeyParts(r1: string, m1: string, u1: string, r2: string, m2: string, u2: string)
    requires ':' !in r1 && ':' !in r2 && ':' !in m1 && ':' !in m2
    requires BuildCacheKey(r1, m1, u1) == BuildCacheKey(r2, m2, u2)
    ensures r1 == r2 && m1 == m2 && Normalise(u1) == Normalise(u2)
  {
    KeyShape(r1, m1, u1);
    KeyShape(r2, m2, u2);
    var t1, t2 := m1 + [':'] + Normalise(u1), m2 + [':'] + Normalise(u2);
    SamePrefix(KEY_PREFIX, r1 + [':'] + t1, r2 + [':'] + t2);
    FirstSeparator(r1, t1, r2, t2, ':');
    FirstSeparator(m1, Normalise(u1), m2, Normalise(u2), ':');
  }

  lemma KeyShape(r: string, m: string, u: string)
    ensures BuildCacheKey(r, m, u) == KEY_PREFIX + (r + [':'] + (m + [':'] + Normalise(u)))
    ensures "gw:cache:" <= BuildCacheKey(r, m, u)
  {
    hide Normalise;
  }

  lemma SamePrefix(prefix: string, a: string, b: string)
    requires prefix + a == prefix + b
    ensures a == b
  {
    assert a == (prefix + a)[|prefix|..] && b == (prefix + b)[|prefix|..];
  }

  /** Normalising twice is normalising once, for every url. */
  lemma NormaliseIdempotent(url: string)
    ensures Normalise(Normalise(url)) == Normalise(url)
  {
    NormaliseSplits(url);
    SortedPieces(url);
    var sorted := Sort(Pieces(url), CodeUnitLeq);
    assert Pieces(Normalise(url)) == NonEmpty(Split(Join(sorted, '&'), '&'));
    if sorted == [] {
      assert Split(Join(sorted, '&'), '&') == [""] && NonEmpty([""]) == [];
    } else {
      SplitJoin(sorted, '&');
      NonEmptyAll(sorted);
    }
    assert Pieces(Normalise(url)) == sorted;
    SortedQueryIsMultiset(Normalise(url), url);
  }

  lemma {:induction false} NonEmptyAll(parts: seq<string>)
    requires forall p :: p in parts ==> p != ""
    ensures NonEmpty(parts) == parts
  {
    if parts != [] {
      assert parts[0] in parts && forall p :: p in parts[1..] ==> p in parts;
      NonEmptyAll(parts[1..]);
    }
  }

  /** The query a client sent: everything behind the first '?'. */
  function WholeQuery(url: string): string {
    if |Split(url, '?')| > 1 then Join(Split(url, '?')[1..], '?') else ""
  }

  /** Requests that may share a response: same path, same query pieces. */
  ghost predicate SameResource(u: string, v: string) {
    && PathOf(u) == PathOf(v)
    && multiset(NonEmpty(Split(WholeQuery(u), '&'))) == multiset(NonEmpty(Split(WholeQuery(v), '&')))
  }

  predicate OneQuestionMark(url: string) {
    |Split(url, '?')| <= 2
  }

  lemma WholeIsCut(url: string)
    requires OneQuestionMark(url)
    ensures WholeQuery(url) == QueryOf(url)
  {
  }

  /** For urls with at most one '?', the key is the intended one: requests share
      it exactly when route, method and resource are the same. */
  lemma SameKeySameResource(r1: string, m1: string, u1: string, r2: string, m2: string, u2: string)
    requires ':' !in r1 && ':' !in r2 && ':' !in m1 && ':' !in m2
    requires OneQuestionMark(u1) && OneQuestionMark(u2)
    ensures BuildCacheKey(r1, m1, u1) == BuildCacheKey(r2, m2, u2) <==>
              r1 == r2 && m1 == m2 && SameResource(u1, u2)
  {
    hide NonEmpty, Split, BuildCacheKey, QueryOf, WholeQuery, OneQuestionMark;
    SameKey(r1, m1, u1, r2, m2, u2);
    WholeIsCut(u1);
    WholeIsCut(u2);
  }

  /** Beyond that it is not: every url with a second '?' shares its key with the
      url cut there, which asks for something else. So the urls with at most
      one '?' are exactly those on which the key can be trusted. */
  lemma SecondQuestionMarkCollides(routeName: string, verb: string, url: string)
    requires !OneQuestionMark(url)
    ensures var cut := PathOf(url) + "?" + QueryOf(url);
      && OneQuestionMark(cut)
      && BuildCacheKey(routeName, verb, cut) == BuildCacheKey(routeName, verb, url)
      && !SameResource(cut, url)
  {
    var path, qs := PathOf(url), QueryOf(url);
    CutUrl(path, qs);
    WholeQueryHasMark(url);
    var whole := WholeQuery(url);
    var p := SplitKeeps(whole, '&', '?');
    if p in Split(qs, '&') {
      PieceOfQuery(qs, '&', p, '?');
    }
    assert p in multiset(NonEmpty(Split(whole, '&'))) && p !in multiset(NonEmpty(Split(qs, '&')));
  }

  lemma CutUrl(path: string, qs: string)
    requires '?' !in path && '?' !in qs
    ensures Split(path + "?" + qs, '?') == [path, qs]
    ensures WholeQuery(path + "?" + qs) == qs
  {
    SplitConcat(path, '?', qs);
    SplitWhole(path, '?');
    SplitWhole(qs, '?');
    assert path + "?" + qs == path + ['?'] + qs;
    assert [path, qs][1..] == [qs];
  }

  lemma WholeQueryHasMark(url: string)
    requires !OneQuestionMark(url)
    ensures '?' in WholeQuery(url)
  {
    var parts := Split(url, '?')[1..];
    assert WholeQuery(url) == parts[0] + ['?'] + Join(parts[1..], '?');
    assert WholeQuery(url)[|parts[0]|] == '?';
  }

  lemma {:induction false} SplitKeeps(s: string, sep: char, c: char) returns (p: string)
    requires c in s && c != sep
    ensures p in Split(s, sep) && c in p
  {
    var rest := Split(s[1..], sep);
    if s[0] == c {
      p := [s[0]] + rest[0];
      assert Split(s, sep)[0] == p;
    } else {
      var q := SplitKeeps(s[1..], sep, c);
      var i :| 0 <= i < |rest| && rest[i] == q;
      p := if s[0] == sep then q else if i == 0 then [s[0]] + q else q;
      assert Split(s, sep)[if s[0] == sep then i + 1 else i] == p;
    }
  }
}
