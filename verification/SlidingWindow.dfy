/** The sliding-window script on one Redis key, and the plain history it stands
    for. Calls carry their own clock reading; Redis shares that clock, and calls
    reach the script in nondecreasing order of it. */
module SlidingWindow {

  const WINDOW_MS := 1000

  /** A sorted-set entry `now .. '-' .. random`, scored `now`. */
  datatype Member = Member(at: int, nonce: int)

  /** A key: its entries and when it expires. No entries means no key. */
  datatype Bucket = Bucket(members: set<Member>, expireAt: int)

  const EMPTY := Bucket({}, 0)

  datatype Call = Call(now: int, nonce: int, limit: int)

  function Entry(c: Call): Member { Member(c.now, c.nonce) }

  /** What the key still holds at `now`, if expiry is in force. */
  function Live(b: Bucket, now: int, expiry: bool): set<Member> {
    if expiry && now >= b.expireAt then {} else b.members
  }

  /** The entries younger than a window at `now`. */
  function Kept(members: set<Member>, now: int): set<Member> {
    set e | e in members && e.at > now - WINDOW_MS
  }

  /** ZREMRANGEBYSCORE key -inf now-window. */
  function Pruned(b: Bucket, now: int, expiry: bool): set<Member> {
    Kept(Live(b, now, expiry), now)
  }

  datatype ScriptResult = ScriptResult(bucket: Bucket, allowed: bool, remaining: int)

  /** The Lua script. With `expiry` off, PEXPIRE has no effect. */
  function Script(b: Bucket, c: Call, expiry: bool): ScriptResult {
    var kept := Pruned(b, c.now, expiry);
    var count := |kept|;
    if count < c.limit then
      ScriptResult(Bucket(kept + {Entry(c)}, c.now + WINDOW_MS), true, c.limit - count - 1)
    else
      ScriptResult(Bucket(kept, b.expireAt), false, 0)
  }

  /** The key after the first `n` calls. */
  function After(calls: seq<Call>, n: nat, expiry: bool): Bucket
    requires n <= |calls|
  {
    if n == 0 then EMPTY else Script(After(calls, n - 1, expiry), calls[n - 1], expiry).bucket
  }

  /** The answer to call `i`. */
  function Answer(calls: seq<Call>, i: nat, expiry: bool): ScriptResult
    requires i < |calls|
  {
    Script(After(calls, i, expiry), calls[i], expiry)
  }

  /** `flags` says which calls were admitted. */
  ghost predicate AreFlags(calls: seq<Call>, flags: seq<bool>, expiry: bool) {
    |flags| == |calls| && forall i :: 0 <= i < |calls| ==> flags[i] == Answer(calls, i, expiry).allowed
  }

  function Flags(calls: seq<Call>, expiry: bool): (flags: seq<bool>)
    ensures AreFlags(calls, flags, expiry)
  {
    seq(|calls|, i requires 0 <= i < |calls| => Answer(calls, i, expiry).allowed)
  }

  ghost predicate Ordered(calls: seq<Call>) {
    forall i, j :: 0 <= i <= j < |calls| ==> calls[i].now <= calls[j].now
  }

  /** Call `i` is flagged and falls in (lo, hi]. */
  predicate Counted(calls: seq<Call>, flags: seq<bool>, i: nat, lo: int, hi: int)
    requires i < |calls| == |flags|
  {
    flags[i] && lo < calls[i].now <= hi
  }

  /** How many of the first `n` calls are. */
  function CountIn(calls: seq<Call>, flags: seq<bool>, n: nat, lo: int, hi: int): nat
    requires n <= |calls| == |flags|
  {
    if n == 0 then 0
    else CountIn(calls, flags, n - 1, lo, hi) + (if Counted(calls, flags, n - 1, lo, hi) then 1 else 0)
  }

  /** The sorted-set members of those calls. */
  function MembersIn(calls: seq<Call>, flags: seq<bool>, n: nat, lo: int, hi: int): (members: set<Member>)
    requires n <= |calls| == |flags|
    ensures forall e :: e in members ==> lo < e.at <= hi
  {
    if n == 0 then {}
    else
      var before := MembersIn(calls, flags, n - 1, lo, hi);
      if Counted(calls, flags, n - 1, lo, hi) then before + {Entry(calls[n - 1])} else before
  }

  /** How many of them share their entry with an earlier one. */
  function Repeats(calls: seq<Call>, flags: seq<bool>, n: nat, lo: int, hi: int): nat
    requires n <= |calls| == |flags|
  {
    if n == 0 then 0
    else
      Repeats(calls, flags, n - 1, lo, hi)
      + (if Counted(calls, flags, n - 1, lo, hi) && Entry(calls[n - 1]) in MembersIn(calls, flags, n - 1, lo, hi)
         then 1 else 0)
  }

  /** No two flagged calls in (lo, hi] have the same clock reading and draw. */
  ghost predicate DistinctMembers(calls: seq<Call>, flags: seq<bool>, n: nat, lo: int, hi: int)
    requires n <= |calls| == |flags|
  {
    forall i, j :: 0 <= i < j < n && Counted(calls, flags, i, lo, hi) && Counted(calls, flags, j, lo, hi) ==>
      calls[i].now != calls[j].now || calls[i].nonce != calls[j].nonce
  }

  lemma {:induction false} MemberSource(calls: seq<Call>, flags: seq<bool>, n: nat, lo: int, hi: int, e: Member)
    requires n <= |calls| == |flags|
    ensures e in MembersIn(calls, flags, n, lo, hi) <==>
              exists i :: 0 <= i < n && Counted(calls, flags, i, lo, hi) && Entry(calls[i]) == e
  {
    if n > 0 {
      MemberSource(calls, flags, n - 1, lo, hi, e);
    }
  }

  /** An entry is held once, so each repetition hides one admission: requests
      are members plus repetitions. */
  lemma {:induction false} MembersVersusCount(calls: seq<Call>, flags: seq<bool>, n: nat, lo: int, hi: int)
    requires n <= |calls| == |flags|
    ensures CountIn(calls, flags, n, lo, hi)
              == |MembersIn(calls, flags, n, lo, hi)| + Repeats(calls, flags, n, lo, hi)
  {
    if n > 0 {
      MembersVersusCount(calls, flags, n - 1, lo, hi);
      var before, e := MembersIn(calls, flags, n - 1, lo, hi), Entry(calls[n - 1]);
      if e in before {
        assert before + {e} == before;
      }
    }
  }

  /** There is no repetition exactly if no two calls draw alike at one instant. */
  lemma {:induction false} NoRepeats(calls: seq<Call>, flags: seq<bool>, n: nat, lo: int, hi: int)
    requires n <= |calls| == |flags|
    ensures Repeats(calls, flags, n, lo, hi) == 0 <==> DistinctMembers(calls, flags, n, lo, hi)
  {
    if n > 0 {
      hide MembersIn, Counted;
      NoRepeats(calls, flags, n - 1, lo, hi);
      MemberSource(calls, flags, n - 1, lo, hi, Entry(calls[n - 1]));
    }
  }

  /** Calls up to `mid` that fall in the window of a later instant fell in the
      window of `mid`. */
  lemma {:induction false} WindowShrinks(calls: seq<Call>, flags: seq<bool>, n: nat, mid: int, now: int)
    requires n <= |calls| == |flags| && mid <= now
    requires forall i :: 0 <= i < n ==> calls[i].now <= mid
    ensures Kept(MembersIn(calls, flags, n, mid - 1000, mid), now)
              == MembersIn(calls, flags, n, now - 1000, now)
  {
    if n > 0 {
      WindowShrinks(calls, flags, n - 1, mid, now);
    }
  }

  /** The window after one call, from the windows before it: what is pruned at
      the call would be pruned later as well. */
  lemma OneMoreCall(b: Bucket, c: Call, expiry: bool, now: int, atCall: set<Member>, later: set<Member>)
    requires c.now <= now
    requires Pruned(b, c.now, expiry) == atCall && Pruned(b, now, expiry) == later
    requires forall e :: e in atCall ==> e.at <= c.now
    requires Kept(atCall, now) == later
    ensures var r := Script(b, c, expiry);
            Pruned(r.bucket, now, expiry)
              == if r.allowed && now - 1000 < c.now then later + {Entry(c)} else later
  {
  }

  /** Seen at `now`, the key after `n` calls holds the members admitted among
      them in the window that ends there. */
  ghost predicate HoldsWindow(calls: seq<Call>, flags: seq<bool>, n: nat, expiry: bool, now: int)
    requires n <= |calls| == |flags|
  {
    Pruned(After(calls, n, expiry), now, expiry) == MembersIn(calls, flags, n, now - 1000, now)
  }

  lemma WindowStep(calls: seq<Call>, flags: seq<bool>, n: nat, expiry: bool, now: int)
    requires n < |calls| == |flags| && flags[n] == Answer(calls, n, expiry).allowed
    requires calls[n].now <= now && forall i :: 0 <= i < n ==> calls[i].now <= calls[n].now
    requires HoldsWindow(calls, flags, n, expiry, now) && HoldsWindow(calls, flags, n, expiry, calls[n].now)
    ensures HoldsWindow(calls, flags, n + 1, expiry, now)
  {
    hide Pruned, Kept;
    var c := calls[n];
    WindowShrinks(calls, flags, n, c.now, now);
    OneMoreCall(After(calls, n, expiry), c, expiry, now,
                MembersIn(calls, flags, n, c.now - 1000, c.now),
                MembersIn(calls, flags, n, now - 1000, now));
  }

  lemma NothingHeld(calls: seq<Call>, flags: seq<bool>, expiry: bool, now: int)
    requires |calls| == |flags|
    ensures HoldsWindow(calls, flags, 0, expiry, now)
  {
  }

  /** The pruned, expiring set refines the history: at any later instant it
      holds exactly the members admitted in the window that ends there, with
      or without PEXPIRE. */
  lemma {:induction false} SetIsWindow(calls: seq<Call>, flags: seq<bool>, n: nat, expiry: bool, now: int)
    requires Ordered(calls) && AreFlags(calls, flags, expiry) && n <= |calls|
    requires n > 0 ==> calls[n - 1].now <= now
    ensures HoldsWindow(calls, flags, n, expiry, now)
  {
    hide HoldsWindow, Answer;
    if n == 0 {
      NothingHeld(calls, flags, expiry, now);
    } else {
      SetIsWindow(calls, flags, n - 1, expiry, now);
      SetIsWindow(calls, flags, n - 1, expiry, calls[n - 1].now);
      WindowStep(calls, flags, n - 1, expiry, now);
    }
  }

  lemma ScriptMeans(b: Bucket, c: Call, expiry: bool, before: set<Member>)
    requires Pruned(b, c.now, expiry) == before
    ensures var r := Script(b, c, expiry);
      && (r.allowed <==> |before| < c.limit)
      && r.bucket.members == before + (if r.allowed then {Entry(c)} else {})
      && r.remaining == (if r.allowed then c.limit - |before| - 1 else 0)
      && (r.allowed && Entry(c) !in before ==> r.remaining + |r.bucket.members| == c.limit)
  {
  }

  /** Call `i` is admitted exactly when fewer than `limit` members lie in the
      window ending at it; the key then holds exactly the window's members, and
      their number plus what remains is the limit. */
  ghost predicate RefinesHistory(calls: seq<Call>, flags: seq<bool>, i: nat, expiry: bool)
    requires i < |calls| == |flags|
  {
    var c := calls[i];
    var before := MembersIn(calls, flags, i, c.now - 1000, c.now);
    var r := Answer(calls, i, expiry);
    && flags[i] == r.allowed
    && (r.allowed <==> |before| < c.limit)
    && r.bucket.members == MembersIn(calls, flags, i + 1, c.now - 1000, c.now)
    && r.remaining == (if r.allowed then c.limit - |before| - 1 else 0)
    && (r.allowed && Entry(c) !in before ==> r.remaining + |r.bucket.members| == c.limit)
    && (!r.allowed ==> r.bucket.members == before)
  }

  lemma CallMeans(calls: seq<Call>, flags: seq<bool>, i: nat, expiry: bool)
    requires i < |calls| == |flags| && flags[i] == Answer(calls, i, expiry).allowed
    requires HoldsWindow(calls, flags, i, expiry, calls[i].now)
    ensures RefinesHistory(calls, flags, i, expiry)
  {
    var c := calls[i];
    ScriptMeans(After(calls, i, expiry), c, expiry, MembersIn(calls, flags, i, c.now - 1000, c.now));
  }

  /** Every call of every ordered history is answered as the history says. */
  lemma CallRefinesHistory(calls: seq<Call>, flags: seq<bool>, i: nat, expiry: bool)
    requires Ordered(calls) && AreFlags(calls, flags, expiry) && i < |calls|
    ensures RefinesHistory(calls, flags, i, expiry)
  {
    SetIsWindow(calls, flags, i, expiry, calls[i].now);
    CallMeans(calls, flags, i, expiry);
  }

  /** The first `n` calls decide what the key is after them. */
  lemma {:induction false} AfterPrefix(a: seq<Call>, b: seq<Call>, n: nat, expiry: bool)
    requires n <= |a| && n <= |b| && forall i :: 0 <= i < n ==> a[i] == b[i]
    ensures After(a, n, expiry) == After(b, n, expiry)
  {
    if n > 0 {
      AfterPrefix(a, b, n - 1, expiry);
    }
  }
}
