/** What the sliding window guarantees over every sequence of calls on a key. */
module LimiterTheorems {
  import opened Arithmetic
  import opened SlidingWindow

  // ------------------------------------------------------------------
  // PEXPIRE
  // ------------------------------------------------------------------

  lemma {:induction false} MembersAgree(calls: seq<Call>, f: seq<bool>, g: seq<bool>, n: nat, lo: int, hi: int)
    requires n <= |calls| == |f| == |g| && forall i :: 0 <= i < n ==> f[i] == g[i]
    ensures MembersIn(calls, f, n, lo, hi) == MembersIn(calls, g, n, lo, hi)
  {
    if n > 0 {
      MembersAgree(calls, f, g, n - 1, lo, hi);
    }
  }

  lemma {:induction false} SameFlags(calls: seq<Call>, f: seq<bool>, g: seq<bool>, n: nat)
    requires Ordered(calls) && AreFlags(calls, f, true) && AreFlags(calls, g, false) && n <= |calls|
    ensures forall i :: 0 <= i < n ==> f[i] == g[i]
  {
    if n > 0 {
      SameFlags(calls, f, g, n - 1);
      SameAnswer(calls, f, g, n - 1);
    }
  }

  lemma SameAnswer(calls: seq<Call>, f: seq<bool>, g: seq<bool>, i: nat)
    requires Ordered(calls) && AreFlags(calls, f, true) && AreFlags(calls, g, false) && i < |calls|
    requires forall j :: 0 <= j < i ==> f[j] == g[j]
    ensures f[i] == g[i] && Answer(calls, i, true).remaining == Answer(calls, i, false).remaining
  {
    CallRefinesHistory(calls, f, i, true);
    CallRefinesHistory(calls, g, i, false);
    MembersAgree(calls, f, g, i, calls[i].now - 1000, calls[i].now);
  }

  /** PEXPIRE only frees memory: with or without it every answer is the same. */
  lemma ExpiryChangesNoAnswer(calls: seq<Call>, i: nat)
    requires Ordered(calls) && i < |calls|
    ensures Answer(calls, i, true).allowed == Answer(calls, i, false).allowed
    ensures Answer(calls, i, true).remaining == Answer(calls, i, false).remaining
  {
    var f, g := Flags(calls, true), Flags(calls, false);
    SameFlags(calls, f, g, i);
    SameAnswer(calls, f, g, i);
  }

  // ------------------------------------------------------------------
  // At most `limit` in every window
  // ------------------------------------------------------------------

  /** The limit in force at the last flagged call in (lo, hi], 0 if there is none. */
  function LastLimit(calls: seq<Call>, flags: seq<bool>, n: nat, lo: int, hi: int): int
    requires n <= |calls| == |flags|
  {
    if n == 0 then 0
    else if Counted(calls, flags, n - 1, lo, hi) then calls[n - 1].limit
    else LastLimit(calls, flags, n - 1, lo, hi)
  }

  /** Only calls up to `mid` were made, so nothing lies beyond it; and an
      interval that starts earlier has more members. */
  lemma {:induction false} MembersWiden(calls: seq<Call>, flags: seq<bool>, n: nat,
                                        lo: int, hi: int, lo': int, mid: int)
    requires n <= |calls| == |flags| && lo' <= lo && mid <= hi
    requires forall i :: 0 <= i < n ==> calls[i].now <= mid
    ensures MembersIn(calls, flags, n, lo, hi) <= MembersIn(calls, flags, n, lo', mid)
  {
    if n > 0 {
      MembersWiden(calls, flags, n - 1, lo, hi, lo', mid);
    }
  }

  lemma {:induction false} Subset(a: set<Member>, b: set<Member>)
    requires a <= b
    ensures |a| <= |b|
  {
    if a != {} {
      var e :| e in a;
      Subset(a - {e}, b - {e});
    }
  }

  lemma BoundStep(calls: seq<Call>, flags: seq<bool>, n: nat, t: int)
    requires n < |calls| == |flags| && forall i :: 0 <= i < n ==> calls[i].now <= calls[n].now
    requires flags[n] ==>
               |MembersIn(calls, flags, n, calls[n].now - 1000, calls[n].now)| < calls[n].limit
    requires |MembersIn(calls, flags, n, t - 1000, t)| <= LastLimit(calls, flags, n, t - 1000, t)
    ensures |MembersIn(calls, flags, n + 1, t - 1000, t)|
              <= LastLimit(calls, flags, n + 1, t - 1000, t)
  {
    var c := calls[n];
    if flags[n] && t - 1000 < c.now <= t {
      MembersWiden(calls, flags, n, t - 1000, t, c.now - 1000, c.now);
      Subset(MembersIn(calls, flags, n, t - 1000, t),
             MembersIn(calls, flags, n, c.now - 1000, c.now));
    }
  }

  lemma AdmittedBelowLimit(calls: seq<Call>, flags: seq<bool>, i: nat)
    requires Ordered(calls) && AreFlags(calls, flags, true) && i < |calls|
    ensures flags[i] <==>
              |MembersIn(calls, flags, i, calls[i].now - 1000, calls[i].now)| < calls[i].limit
    ensures forall j :: 0 <= j < i ==> calls[j].now <= calls[i].now
  {
    CallRefinesHistory(calls, flags, i, true);
  }

  lemma NothingAdmitted(calls: seq<Call>, flags: seq<bool>, t: int)
    requires |calls| == |flags|
    ensures |MembersIn(calls, flags, 0, t - 1000, t)| <= LastLimit(calls, flags, 0, t - 1000, t)
  {
  }

  /** After every number of calls and at every instant `t`, called at or not,
      the window (t - 1000, t] holds at most as many admitted members as the
      limit in force at the last admission in it, whatever the limits of the
      calls and even if members collide. */
  lemma {:induction false} WindowBound(calls: seq<Call>, flags: seq<bool>, n: nat, t: int)
    requires Ordered(calls) && AreFlags(calls, flags, true) && n <= |calls|
    ensures |MembersIn(calls, flags, n, t - 1000, t)| <= LastLimit(calls, flags, n, t - 1000, t)
  {
    hide Answer, Ordered, MembersIn, LastLimit;
    if n == 0 {
      NothingAdmitted(calls, flags, t);
    } else {
      AdmittedBelowLimit(calls, flags, n - 1);
      WindowBound(calls, flags, n - 1, t);
      BoundStep(calls, flags, n - 1, t);
    }
  }

  /** A call with a positive limit is refused exactly if at least `limit` members
      were admitted in the thousand milliseconds up to it. */
  lemma RefusedWhenFull(calls: seq<Call>, flags: seq<bool>, i: nat)
    requires Ordered(calls) && AreFlags(calls, flags, true) && i < |calls|
    ensures !Answer(calls, i, true).allowed <==>
              |MembersIn(calls, flags, i, calls[i].now - 1000, calls[i].now)| >= calls[i].limit
  {
    AdmittedBelowLimit(calls, flags, i);
  }

  /** On a fresh key with limit 1, the first call is admitted, and the second
      exactly if at least a second has passed. */
  lemma OnePerSecond(first: Call, second: Call)
    requires first.limit == 1 && second.limit == 1 && first.now <= second.now
    ensures Answer([first, second], 0, true).allowed
    ensures Answer([first, second], 1, true).allowed <==> second.now >= first.now + 1000
  {
    var calls := [first, second];
    assert Pruned(EMPTY, first.now, true) == {};
    var b := Bucket({Entry(first)}, first.now + 1000);
    assert After(calls, 1, true) == b;
    assert Pruned(b, second.now, true) == if second.now >= first.now + 1000 then {} else {Entry(first)};
  }

  /** Three calls at one instant with limit 2 are all admitted only if the first
      two draw the same number. */
  lemma ThirdIsRefused(now: int, a: int, b: int, c: int)
    ensures var calls := [Call(now, a, 2), Call(now, b, 2), Call(now, c, 2)];
            Answer(calls, 2, true).allowed <==> a == b
  {
    var calls := [Call(now, a, 2), Call(now, b, 2), Call(now, c, 2)];
    var x, y := Member(now, a), Member(now, b);
    assert Pruned(EMPTY, now, true) == {};
    assert After(calls, 1, true) == Bucket({x}, now + 1000);
    assert Pruned(After(calls, 1, true), now, true) == {x};
    assert After(calls, 2, true) == Bucket({x} + {y}, now + 1000);
    assert Pruned(After(calls, 2, true), now, true) == {x} + {y};
    assert |{x} + {y}| == if a == b then 1 else 2;
  }

  /** So at most that many requests are admitted, plus one for each repetition
      of an entry; with distinct entries in the window, at most that many. */
  lemma AdmissionBound(calls: seq<Call>, flags: seq<bool>, n: nat, t: int)
    requires Ordered(calls) && AreFlags(calls, flags, true) && n <= |calls|
    ensures CountIn(calls, flags, n, t - 1000, t)
              <= LastLimit(calls, flags, n, t - 1000, t) + Repeats(calls, flags, n, t - 1000, t)
    ensures DistinctMembers(calls, flags, n, t - 1000, t) ==>
              CountIn(calls, flags, n, t - 1000, t) <= LastLimit(calls, flags, n, t - 1000, t)
  {
    hide Answer, Ordered, MembersIn, CountIn, Repeats, LastLimit, DistinctMembers;
    WindowBound(calls, flags, n, t);
    MembersVersusCount(calls, flags, n, t - 1000, t);
    NoRepeats(calls, flags, n, t - 1000, t);
  }

  /** Repetitions do happen: the member is the clock reading and a random number,
      and two calls that draw the same pair share an entry, so that a limit of 2
      admits three requests at one instant. */
  lemma CollisionOverAdmits(now: int, nonce: int, other: int)
    requires other != nonce
    ensures var calls := [Call(now, nonce, 2), Call(now, nonce, 2), Call(now, other, 2)];
            forall i :: 0 <= i < 3 ==> Answer(calls, i, true).allowed
  {
    var c, d := Call(now, nonce, 2), Call(now, other, 2);
    var calls := [c, c, d];
    var b := Bucket({Entry(c)}, now + 1000);
    assert Pruned(EMPTY, now, true) == {};
    assert Answer(calls, 0, true) == ScriptResult(b, true, 1);
    assert Pruned(b, now, true) == {Entry(c)};
    assert After(calls, 1, true) == b;
    assert Answer(calls, 1, true) == ScriptResult(b, true, 0);
    assert After(calls, 2, true) == b;
  }

  // ------------------------------------------------------------------
  // Longer intervals
  // ------------------------------------------------------------------

  ghost predicate LimitsWithin(calls: seq<Call>, limit: nat) {
    forall i :: 0 <= i < |calls| ==> calls[i].limit <= limit
  }

  lemma {:induction false} LimitsBoundLast(calls: seq<Call>, flags: seq<bool>, n: nat, lo: int, hi: int, limit: nat)
    requires n <= |calls| == |flags| && LimitsWithin(calls, limit)
    ensures LastLimit(calls, flags, n, lo, hi) <= limit
  {
    if n > 0 {
      LimitsBoundLast(calls, flags, n - 1, lo, hi, limit);
    }
  }

  /** A selection among the first `n` requests with at most `limit` in every window. */
  ghost predicate Obeys(calls: seq<Call>, selection: seq<bool>, n: nat, limit: nat)
    requires n <= |calls| == |selection|
  {
    forall lo, t :: lo == t - 1000 ==> CountIn(calls, selection, n, lo, t) <= limit
  }

  /** The limiter's own admissions obey the largest of its limits, if those in
      one window have distinct entries. */
  lemma LimiterObeys(calls: seq<Call>, flags: seq<bool>, n: nat, limit: nat)
    requires Ordered(calls) && AreFlags(calls, flags, true) && n <= |calls|
    requires forall lo, t :: lo == t - 1000 ==> DistinctMembers(calls, flags, n, lo, t)
    requires LimitsWithin(calls, limit)
    ensures Obeys(calls, flags, n, limit)
  {
    hide Answer, Ordered, DistinctMembers, CountIn, LastLimit;
    forall lo, t | lo == t - 1000
      ensures CountIn(calls, flags, n, lo, t) <= limit
    {
      assert DistinctMembers(calls, flags, n, lo, t);
      AdmissionBound(calls, flags, n, t);
      LimitsBoundLast(calls, flags, n, lo, t, limit);
    }
  }

  /** At most `limit` admitted members in every window. */
  ghost predicate WindowsHold(calls: seq<Call>, flags: seq<bool>, n: nat, limit: nat)
    requires n <= |calls| == |flags|
  {
    forall lo, t :: lo == t - 1000 ==> |MembersIn(calls, flags, n, lo, t)| <= limit
  }

  lemma {:induction false} MembersSplit(calls: seq<Call>, flags: seq<bool>, n: nat, lo: int, mid: int, hi: int)
    requires n <= |calls| == |flags| && lo <= mid <= hi
    ensures MembersIn(calls, flags, n, lo, hi)
              == MembersIn(calls, flags, n, lo, mid) + MembersIn(calls, flags, n, mid, hi)
    ensures |MembersIn(calls, flags, n, lo, hi)|
              == |MembersIn(calls, flags, n, lo, mid)| + |MembersIn(calls, flags, n, mid, hi)|
  {
    if n > 0 {
      MembersSplit(calls, flags, n - 1, lo, mid, hi);
    }
    assert MembersIn(calls, flags, n, lo, mid) !! MembersIn(calls, flags, n, mid, hi);
  }

  lemma {:induction false} WindowsBound(calls: seq<Call>, flags: seq<bool>, n: nat, lo: int, length: nat,
                                        limit: nat, k: nat)
    requires n <= |calls| == |flags| && WindowsHold(calls, flags, n, limit)
    requires length <= k * 1000
    ensures |MembersIn(calls, flags, n, lo, lo + length)| <= limit * k
    decreases k
  {
    hide MembersIn;
    if k == 0 {
      assert MembersIn(calls, flags, n, lo, lo) == {};
    } else {
      var first := if length < 1000 then length else 1000;
      MembersSplit(calls, flags, n, lo, lo + first, lo + length);
      WindowsBound(calls, flags, n, lo + first, length - first, limit, k - 1);
      MembersSplit(calls, flags, n, lo + first - 1000, lo, lo + first);
      assert limit * k == limit * (k - 1) + limit;
    }
  }

  lemma LimiterWindowsHold(calls: seq<Call>, flags: seq<bool>, n: nat, limit: nat)
    requires Ordered(calls) && AreFlags(calls, flags, true) && n <= |calls| && LimitsWithin(calls, limit)
    ensures WindowsHold(calls, flags, n, limit)
  {
    hide Answer, Ordered, MembersIn, LastLimit;
    forall lo, t | lo == t - 1000
      ensures |MembersIn(calls, flags, n, lo, t)| <= limit
    {
      WindowBound(calls, flags, n, t);
      LimitsBoundLast(calls, flags, n, lo, t, limit);
    }
  }

  /** Any half-open interval of length L admits at most limit * ceil(L / window)
      requests, plus one for each repetition of an entry in it; with distinct
      entries, at most limit * ceil(L / window). */
  lemma IntervalBound(calls: seq<Call>, flags: seq<bool>, n: nat, lo: int, length: nat, limit: nat)
    requires Ordered(calls) && AreFlags(calls, flags, true) && n <= |calls| && LimitsWithin(calls, limit)
    ensures CountIn(calls, flags, n, lo, lo + length)
              <= limit * CeilDiv(length, 1000) + Repeats(calls, flags, n, lo, lo + length)
    ensures DistinctMembers(calls, flags, n, lo, lo + length) ==>
              CountIn(calls, flags, n, lo, lo + length) <= limit * CeilDiv(length, 1000)
  {
    hide Answer, Ordered, MembersIn, CountIn, Repeats, DistinctMembers, WindowsHold, LimitsWithin, CeilDiv;
    LimiterWindowsHold(calls, flags, n, limit);
    var k := CeilDiv(length, 1000);
    CeilDivIsLeast(length, 1000, k);
    CeilDivIsLeast(length, 1000, -1);
    WindowsBound(calls, flags, n, lo, length, limit, k);
    MembersVersusCount(calls, flags, n, lo, lo + length);
    NoRepeats(calls, flags, n, lo, lo + length);
  }

  // ------------------------------------------------------------------
  // Greedy is optimal
  // ------------------------------------------------------------------

  /** How many of the first `n` calls are flagged. */
  function Total(flags: seq<bool>, n: nat): nat
    requires n <= |flags|
  {
    if n == 0 then 0 else Total(flags, n - 1) + (if flags[n - 1] then 1 else 0)
  }

  lemma {:induction false} CountGrows(calls: seq<Call>, flags: seq<bool>, k: nat, n: nat, lo: int, hi: int)
    requires k <= n <= |calls| == |flags|
    ensures CountIn(calls, flags, k, lo, hi) <= CountIn(calls, flags, n, lo, hi)
  {
    if k < n {
      CountGrows(calls, flags, k, n - 1, lo, hi);
    }
  }

  /** Of the first `n` calls, those before `k` lie at or before `edge`, the
      others in (edge, hi]. */
  ghost predicate CutAt(calls: seq<Call>, k: nat, n: nat, edge: int, hi: int)
    requires k <= n <= |calls|
  {
    && (forall i :: 0 <= i < k ==> calls[i].now <= edge)
    && (forall i :: k <= i < n ==> edge < calls[i].now <= hi)
  }

  ghost function FindCut(calls: seq<Call>, n: nat, edge: int, hi: int): (k: nat)
    requires Ordered(calls) && n <= |calls| && forall i :: 0 <= i < n ==> calls[i].now <= hi
    ensures k <= n && CutAt(calls, k, n, edge, hi)
  {
    if n == 0 || calls[n - 1].now <= edge then n else FindCut(calls, n - 1, edge, hi)
  }

  lemma {:induction false} TotalAfterCut(calls: seq<Call>, flags: seq<bool>, k: nat, n: nat, edge: int, hi: int)
    requires k <= n <= |calls| == |flags| && CutAt(calls, k, n, edge, hi)
    ensures Total(flags, n) == Total(flags, k) + CountIn(calls, flags, n, edge, hi)
  {
    if k < n {
      TotalAfterCut(calls, flags, k, n - 1, edge, hi);
    } else {
      NoneAfter(calls, flags, n, edge, hi);
    }
  }

  lemma {:induction false} NoneAfter(calls: seq<Call>, flags: seq<bool>, n: nat, edge: int, hi: int)
    requires n <= |calls| == |flags| && forall i :: 0 <= i < n ==> calls[i].now <= edge
    ensures CountIn(calls, flags, n, edge, hi) == 0
  {
    if n > 0 {
      NoneAfter(calls, flags, n - 1, edge, hi);
    }
  }

  ghost predicate AllLimits(calls: seq<Call>, limit: nat) {
    forall i :: 0 <= i < |calls| ==> calls[i].limit == limit
  }

  /** A rule that refuses a request only when its own window is full. */
  ghost predicate Eager(calls: seq<Call>, flags: seq<bool>, limit: nat)
    requires |flags| == |calls|
  {
    forall i :: 0 <= i < |calls| && !flags[i] ==>
      CountIn(calls, flags, i, calls[i].now - 1000, calls[i].now) >= limit
  }

  /** A refusal means at least `limit` admitted requests, not merely members. */
  lemma LimiterIsEager(calls: seq<Call>, flags: seq<bool>, limit: nat)
    requires Ordered(calls) && AllLimits(calls, limit) && AreFlags(calls, flags, true)
    ensures Eager(calls, flags, limit)
  {
    forall i | 0 <= i < |calls| && !flags[i]
      ensures CountIn(calls, flags, i, calls[i].now - 1000, calls[i].now) >= limit
    {
      AdmittedBelowLimit(calls, flags, i);
      MembersVersusCount(calls, flags, i, calls[i].now - 1000, calls[i].now);
    }
  }

  /** An eager rule that has just refused is level with any other rule if it
      was level where the last window begins. */
  lemma DeniedKeepsUp(calls: seq<Call>, flags: seq<bool>, selection: seq<bool>, limit: nat,
                      k: nat, n: nat, edge: int, hi: int)
    requires k <= n <= |calls| == |flags| == |selection| && CutAt(calls, k, n, edge, hi)
    requires CountIn(calls, selection, n, edge, hi) <= limit <= CountIn(calls, flags, n, edge, hi)
    requires Total(selection, k) <= Total(flags, k)
    ensures Total(selection, n) <= Total(flags, n)
  {
    TotalAfterCut(calls, selection, k, n, edge, hi);
    TotalAfterCut(calls, flags, k, n, edge, hi);
  }

  lemma {:induction false} EagerIsOptimal(calls: seq<Call>, flags: seq<bool>, selection: seq<bool>,
                                          limit: nat, n: nat)
    requires n <= |calls| == |flags| == |selection| && Ordered(calls)
    requires Eager(calls, flags, limit) && Obeys(calls, selection, |calls|, limit)
    ensures Total(selection, n) <= Total(flags, n)
    decreases n
  {
    if n > 0 {
      if flags[n - 1] {
        EagerIsOptimal(calls, flags, selection, limit, n - 1);
      } else {
        var hi := calls[n - 1].now;
        var edge := hi - 1000;
        var k := FindCut(calls, n, edge, hi);
        EagerIsOptimal(calls, flags, selection, limit, k);
        CountGrows(calls, flags, n - 1, n, edge, hi);
        CountGrows(calls, selection, n, |calls|, edge, hi);
        DeniedKeepsUp(calls, flags, selection, limit, k, n, edge, hi);
      }
    }
  }

  /** Greedy is optimal: whatever requests another rule selects, as long as it
      keeps at most `limit` in every window, the limiter has admitted at least
      as many on every prefix. Distinct members are not needed. */
  lemma GreedyIsOptimal(calls: seq<Call>, flags: seq<bool>, selection: seq<bool>, limit: nat, n: nat)
    requires Ordered(calls) && AllLimits(calls, limit) && AreFlags(calls, flags, true)
    requires n <= |calls| == |selection| && Obeys(calls, selection, |calls|, limit)
    ensures Total(selection, n) <= Total(flags, n)
  {
    LimiterIsEager(calls, flags, limit);
    EagerIsOptimal(calls, flags, selection, limit, n);
  }

  /** The limiter's j-th admission is never later than the other rule's. */
  lemma NeverLater(calls: seq<Call>, flags: seq<bool>, selection: seq<bool>, limit: nat, i: nat)
    requires Ordered(calls) && AllLimits(calls, limit) && AreFlags(calls, flags, true)
    requires |calls| == |selection| && Obeys(calls, selection, |calls|, limit)
    requires i < |calls| && selection[i]
    ensures exists e :: 0 <= e <= i && flags[e] && Total(flags, e + 1) == Total(selection, i + 1)
  {
    GreedyIsOptimal(calls, flags, selection, limit, i + 1);
    Reaches(flags, i + 1, Total(selection, i + 1));
  }

  lemma {:induction false} Reaches(flags: seq<bool>, n: nat, j: nat)
    requires n <= |flags| && 0 < j <= Total(flags, n)
    ensures exists e :: 0 <= e < n && flags[e] && Total(flags, e + 1) == j
  {
    if j <= Total(flags, n - 1) {
      Reaches(flags, n - 1, j);
    } else {
      assert flags[n - 1] && Total(flags, n - 1 + 1) == j;
    }
  }

  // ------------------------------------------------------------------
  // Denied calls
  // ------------------------------------------------------------------

  /** Two keys that look alike to every call from `t` on. */
  ghost predicate Twins(a: Bucket, b: Bucket, t: int) {
    forall now :: now >= t ==> Pruned(a, now, true) == Pruned(b, now, true)
  }

  lemma DeniedKeepsWindow(b: Bucket, c: Call)
    requires !Script(b, c, true).allowed
    ensures Twins(Script(b, c, true).bucket, b, c.now)
  {
  }

  lemma TwinsAnswerAlike(a: Bucket, b: Bucket, t: int, c: Call)
    requires Twins(a, b, t) && c.now >= t
    ensures Script(a, c, true).allowed == Script(b, c, true).allowed
    ensures Script(a, c, true).remaining == Script(b, c, true).remaining
    ensures Twins(Script(a, c, true).bucket, Script(b, c, true).bucket, c.now)
  {
    assert Pruned(a, c.now, true) == Pruned(b, c.now, true);
    if !Script(a, c, true).allowed {
      DeniedKeepsWindow(a, c);
      DeniedKeepsWindow(b, c);
    }
  }

  /** The calls with number `n` left out. */
  function Without(calls: seq<Call>, n: nat): (rest: seq<Call>)
    requires n < |calls|
    ensures |rest| == |calls| - 1
    ensures forall i :: 0 <= i < n ==> rest[i] == calls[i]
    ensures forall i :: n <= i < |rest| ==> rest[i] == calls[i + 1]
  {
    calls[..n] + calls[n + 1..]
  }

  lemma {:induction false} StayTwins(calls: seq<Call>, rest: seq<Call>, n: nat, i: nat)
    requires Ordered(calls) && n <= i < |calls| == |rest| + 1 && !Answer(calls, n, true).allowed
    requires forall j :: n <= j < |rest| ==> rest[j] == calls[j + 1]
    requires After(calls, n, true) == After(rest, n, true)
    ensures Twins(After(calls, i + 1, true), After(rest, i, true), calls[i].now)
  {
    if i == n {
      DeniedKeepsWindow(After(calls, n, true), calls[n]);
    } else {
      StayTwins(calls, rest, n, i - 1);
      TwinsAnswerAlike(After(calls, i, true), After(rest, i - 1, true), calls[i - 1].now, calls[i]);
    }
  }

  /** A denied call leaves no trace: every later answer is what it would have
      been had the call never been made. */
  lemma DeniedLeavesNoTrace(calls: seq<Call>, n: nat, i: nat)
    requires Ordered(calls) && n < i < |calls| && !Answer(calls, n, true).allowed
    ensures Answer(calls, i, true).allowed == Answer(Without(calls, n), i - 1, true).allowed
    ensures Answer(calls, i, true).remaining == Answer(Without(calls, n), i - 1, true).remaining
  {
    hide Pruned, Twins, Script;
    var rest := Without(calls, n);
    AfterPrefix(calls, rest, n, true);
    StayTwins(calls, rest, n, i - 1);
    TwinsAnswerAlike(After(calls, i, true), After(rest, i - 1, true), calls[i - 1].now, calls[i]);
  }

  // ------------------------------------------------------------------
  // Retry-After
  // ------------------------------------------------------------------

  /** Retry-After: seconds until the reset instant, rounded up, seen from the
      clock when the reply is written. */
  function RetryAfterSeconds(resetAtMs: int, clock: int): int {
    CeilDiv(resetAtMs - clock, 1000)
  }

  /** Retry-After is honoured: a denied client that waits that long after the
      reply, with no other call on its key in between, is admitted for every
      limit >= 1. The header is never more than one second, and exactly one
      unless the reply is written a window later than the check. */
  lemma RetryAfterIsHonoured(calls: seq<Call>, n: nat, clock: int)
    requires Ordered(calls) && n + 1 < |calls| && !Answer(calls, n, true).allowed
    requires clock >= calls[n].now && calls[n + 1].limit >= 1
    requires calls[n + 1].now >= clock + 1000 * RetryAfterSeconds(calls[n].now + 1000, clock)
    ensures Answer(calls, n + 1, true).allowed
    ensures RetryAfterSeconds(calls[n].now + 1000, clock) <= 1
    ensures clock < calls[n].now + 1000 ==> RetryAfterSeconds(calls[n].now + 1000, clock) == 1
  {
    var now := calls[n + 1].now;
    CeilDivIsLeast(calls[n].now + 1000 - clock, 1000, RetryAfterSeconds(calls[n].now + 1000, clock));
    assert now - 1000 >= calls[n].now;
    AdmittedAfterWindow(calls, Flags(calls, true), n + 1);
  }

  lemma AdmittedAfterWindow(calls: seq<Call>, flags: seq<bool>, i: nat)
    requires Ordered(calls) && AreFlags(calls, flags, true) && 0 < i < |calls|
    requires calls[i].limit >= 1 && calls[i - 1].now <= calls[i].now - 1000
    ensures flags[i]
  {
    AdmittedBelowLimit(calls, flags, i);
    NoMembers(calls, flags, i, calls[i].now - 1000, calls[i].now);
  }

  lemma {:induction false} NoMembers(calls: seq<Call>, flags: seq<bool>, n: nat, lo: int, hi: int)
    requires n <= |calls| == |flags| && forall i :: 0 <= i < n ==> calls[i].now <= lo
    ensures MembersIn(calls, flags, n, lo, hi) == {}
  {
    if n > 0 {
      NoMembers(calls, flags, n - 1, lo, hi);
    }
  }
}
