/** Nearest-rank percentiles over a sorted copy, with exact rationals. */
module Percentile {
  import opened Arithmetic
  import opened Strings
  import opened Sorting

  function Leq(): (int, int) -> bool { (x: int, y: int) => x <= y }

  /** `sorted[max(0, ceil(p/100 * n) - 1)]`, undefined without samples. */
  function PercentileOf(samples: seq<int>, p: nat): (v: Option<int>)
    requires p <= 100
    ensures v.None? <==> samples == []
  {
    if samples == [] then None
    else
      SortSorts(samples, Leq());
      var idx := CeilDiv(p * |samples|, 100) - 1;
      IndexInRange(p, |samples|);
      Some(Sort(samples, Leq())[if idx > 0 then idx else 0])
  }

  lemma IndexInRange(p: nat, n: nat)
    requires p <= 100 && n > 0
    ensures CeilDiv(p * n, 100) - 1 < n
    ensures p > 0 ==> CeilDiv(p * n, 100) >= 1
  {
    assert p * n <= 100 * n;
    if p > 0 {
      assert p * n >= n;
    }
  }

  function CountIf(s: seq<int>, f: int -> bool): nat {
    if s == [] then 0 else (if f(s[0]) then 1 else 0) + CountIf(s[1..], f)
  }

  lemma {:induction false} CountInsert(x: int, s: seq<int>, f: int -> bool)
    ensures CountIf(Insert(x, s, Leq()), f) == (if f(x) then 1 else 0) + CountIf(s, f)
  {
    if s == [] || x <= s[0] {
      assert ([x] + s)[1..] == s;
    } else {
      CountInsert(x, s[1..], f);
      assert ([s[0]] + Insert(x, s[1..], Leq()))[1..] == Insert(x, s[1..], Leq());
    }
  }

  lemma {:induction false} CountSorted(s: seq<int>, f: int -> bool)
    ensures CountIf(Sort(s, Leq()), f) == CountIf(s, f)
  {
    if s != [] {
      CountSorted(s[1..], f);
      CountInsert(s[0], Sort(s[1..], Leq()), f);
    }
  }

  lemma {:induction false} CountBounds(s: seq<int>, f: int -> bool, k: nat)
    requires k <= |s|
    ensures (forall i :: 0 <= i < k ==> f(s[i])) ==> CountIf(s, f) >= k
    ensures (forall i :: k <= i < |s| ==> !f(s[i])) ==> CountIf(s, f) <= k
  {
    if s != [] {
      CountBounds(s[1..], f, if k > 0 then k - 1 else 0);
      assert forall i :: 0 <= i < |s| - 1 ==> s[1..][i] == s[i + 1];
    }
  }

  /** A sample that at least ceil(p n / 100) samples do not exceed, with fewer
      than that below it. */
  ghost predicate IsNearestRank(samples: seq<int>, p: nat, v: int) {
    && v in samples
    && CountIf(samples, x => x <= v) >= CeilDiv(p * |samples|, 100)
    && CountIf(samples, x => x < v) < CeilDiv(p * |samples|, 100)
  }

  /** The reported value is the nearest rank. */
  lemma NearestRank(samples: seq<int>, p: nat)
    requires samples != [] && 1 <= p <= 100
    ensures IsNearestRank(samples, p, PercentileOf(samples, p).value)
    ensures 1 <= CeilDiv(p * |samples|, 100) <= |samples|
  {
    hide Sort, CountIf;
    SortSorts(samples, Leq());
    IndexInRange(p, |samples|);
    var sorted := Sort(samples, Leq());
    var rank := CeilDiv(p * |samples|, 100);
    var v := sorted[rank - 1];
    assert v in multiset(sorted) && v in multiset(samples);
    assert TotalOrder(Leq());
    forall i | 0 <= i < |sorted|
      ensures (i < rank ==> sorted[i] <= v) && (i >= rank - 1 ==> sorted[i] >= v)
    {
      if i < rank - 1 {
        assert Leq()(sorted[i], sorted[rank - 1]);
      } else if i > rank - 1 {
        assert Leq()(sorted[rank - 1], sorted[i]);
      }
    }
    CountBounds(sorted, x => x <= v, rank);
    CountBounds(sorted, x => x < v, rank - 1);
    CountSorted(samples, x => x <= v);
    CountSorted(samples, x => x < v);
  }

  lemma RankGrows(p: nat, q: nat, n: nat)
    requires p <= q
    ensures CeilDiv(p * n, 100) <= CeilDiv(q * n, 100)
  {
    CeilDivIsLeast(p * n, 100, CeilDiv(q * n, 100));
    CeilDivIsLeast(q * n, 100, CeilDiv(q * n, 100));
    assert p * n <= q * n;
  }

  /** Higher percentiles are no smaller: p50 <= p95 <= p99. */
  lemma PercentilesMonotone(samples: seq<int>, p: nat, q: nat)
    requires samples != [] && p <= q <= 100
    ensures PercentileOf(samples, p).value <= PercentileOf(samples, q).value
  {
    hide Sort, CeilDiv;
    SortSorts(samples, Leq());
    var sorted, n := Sort(samples, Leq()), |samples|;
    assert TotalOrder(Leq());
    RankGrows(p, q, n);
    var i, j := CeilDiv(p * n, 100) - 1, CeilDiv(q * n, 100) - 1;
    IndexInRange(p, n);
    IndexInRange(q, n);
    if 0 <= i < j {
      assert Leq()(sorted[i], sorted[j]);
    } else if i < 0 < j {
      assert Leq()(sorted[0], sorted[j]);
    }
  }
}
