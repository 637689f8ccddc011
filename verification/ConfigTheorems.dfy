/** What the reload protocol guarantees over all interleavings, and what it
    does not. A run is a list of steps from the empty database; `At(steps, i)`
    is its state after `i` steps; mutation `m` is the write at log position `m`. */
module ConfigTheorems {
  import opened Strings
  import opened Models
  import opened ConfigTables
  import opened ConfigProtocol
  import opened ConfigInvariants
  import RouteMatcher

  /** Mutation `m` has inserted version `v`, or has read `v - 1` and will. */
  ghost predicate Claims(s: State, m: nat, v: nat) {
    || (m in s.bumped && s.bumped[m] == v)
    || (exists a :: a in s.admins && s.admins[a].ReadLatest? && s.admins[a].m == m && s.admins[a].seen + 1 == v)
  }

  /** The only step that makes a claim reads the maximum just below it. */
  lemma NewClaim(s: State, st: Step, m: nat, v: nat)
    requires Enabled(s, st) && Claims(Do(s, st), m, v) && !Claims(s, m, v)
    ensures st.ReadMax? && MaxVersion(s.versions) == v - 1
    ensures Do(s, st).versions == s.versions
  {
    hide Replay, Effect, Accepted, EnabledListing, PolicyListing;
    var s' := Do(s, st);
    if !(m in s'.bumped && s'.bumped[m] == v) {
      var a :| a in s'.admins && s'.admins[a].ReadLatest? && s'.admins[a].m == m && s'.admins[a].seen + 1 == v;
      assert !(a in s.admins && s.admins[a] == s'.admins[a]);
    }
  }

  lemma ClaimStep(steps: seq<Step>, i: nat, m: nat, v: nat)
    requires RunsFrom(INIT, steps) && i < |steps| && Claims(At(steps, i + 1), m, v)
    ensures Claims(At(steps, i), m, v) || MaxVersion(At(steps, i + 1).versions) < v
  {
    hide At, Claims, Do, Enabled;
    AtStep(steps, i);
    if !Claims(At(steps, i), m, v) {
      NewClaim(At(steps, i), steps[i], m, v);
    }
  }

  lemma ClaimsAreLogged(s: State, m: nat, v: nat)
    requires AdminsInv(s) && Claims(s, m, v)
    ensures m < |s.log|
  {
  }

  /** A version never runs ahead of its write: if mutation `m` inserts version
      `v` at any point of a run, then in every earlier or equal state that
      already stores a version >= v, inserted by whomever, the write of `m` is
      in the log. Concurrent bumps with equal or late versions included. */
  lemma {:induction false} WriteBeforeVersion(steps: seq<Step>, i: nat, j: nat, m: nat, v: nat)
    requires RunsFrom(INIT, steps) && i <= j <= |steps|
    requires Claims(At(steps, j), m, v)
    requires MaxVersion(At(steps, i).versions) >= v
    ensures m < |At(steps, i).log|
    ensures At(steps, i).log <= At(steps, j).log
    decreases j
  {
    hide At, Claims, RunsFrom;
    Grows(steps, i, j);
    if i == j {
      InvHolds(steps, j);
      ClaimsAreLogged(At(steps, j), m, v);
    } else {
      ClaimStep(steps, j - 1, m, v);
      WriteBeforeVersion(steps, i, j - 1, m, v);
    }
  }

  /** Every mutation that ever inserts a version <= `version` is below `at`. */
  ghost predicate Covers(bumped: map<nat, nat>, version: nat, at: nat) {
    forall m :: m in bumped && bumped[m] <= version ==> m < at
  }

  /** Everything in `s` that carries a version covers the final bumps. */
  ghost predicate Covering(s: State, bumped: map<nat, nat>) {
    && Covers(bumped, MaxVersion(s.versions), |s.log|)
    && (forall t :: t in s.reloads && s.reloads[t].Loading? ==> LoadCovers(s.reloads[t], bumped))
    && (forall g :: Covers(bumped, CacheOf(s, g).version, CacheOf(s, g).versionAt))
  }

  ghost predicate LoadCovers(r: Reload, bumped: map<nat, nat>)
    requires r.Loading?
  {
    && (r.routes.Some? ==> Covers(bumped, r.trigger, r.routes.value.at))
    && (r.policies.Some? ==> Covers(bumped, r.trigger, r.policies.value.at))
    && (r.version.Some? ==> Covers(bumped, r.version.value.value, r.version.value.at))
  }

  lemma MaxCovers(steps: seq<Step>, i: nat, j: nat)
    requires RunsFrom(INIT, steps) && i <= j <= |steps|
    ensures Covers(At(steps, j).bumped, MaxVersion(At(steps, i).versions), |At(steps, i).log|)
  {
    var bumped := At(steps, j).bumped;
    forall m | m in bumped && bumped[m] <= MaxVersion(At(steps, i).versions)
      ensures m < |At(steps, i).log|
    {
      WriteBeforeVersion(steps, i, j, m, bumped[m]);
    }
  }

  lemma CoveringStep(s: State, st: Step, bumped: map<nat, nat>)
    requires Inv(s) && Covering(s, bumped) && Enabled(s, st)
    requires Covers(bumped, MaxVersion(Do(s, st).versions), |Do(s, st).log|)
    ensures Covering(Do(s, st), bumped)
  {
    hide Replay, Effect, Accepted, EnabledListing, PolicyListing, MaxVersion, Consistent, PolicyMap;
    hide LogInv, AdminsInv, CacheInv;
    var s' := Do(s, st);
    forall t | t in s'.reloads && s'.reloads[t].Loading?
      ensures LoadCovers(s'.reloads[t], bumped)
    {
      if t in s.reloads {
        assert ReloadInv(s, s.reloads[t]);
      }
    }
    forall g
      ensures Covers(bumped, CacheOf(s', g).version, CacheOf(s', g).versionAt)
    {
      if st.Install? && g == s.reloads[st.t].g {
        assert CacheOf(s', g) == Snapshot(s.reloads[st.t]);
      } else {
        assert CacheOf(s', g) == CacheOf(s, g);
      }
    }
  }

  lemma {:induction false} CoveringHolds(steps: seq<Step>, i: nat, j: nat)
    requires RunsFrom(INIT, steps) && i <= j <= |steps|
    ensures Covering(At(steps, i), At(steps, j).bumped)
  {
    MaxCovers(steps, i, j);
    InvHolds(steps, j);
    if i == 0 {
      assert steps[..0] == [];
    } else {
      CoveringHolds(steps, i - 1, j);
      InvHolds(steps, i - 1);
      AtStep(steps, i - 1);
      CoveringStep(At(steps, i - 1), steps[i - 1], At(steps, j).bumped);
    }
  }

  /** The code as written: a reload triggered by polled version `p` installs a
      config that records a version >= p and holds every mutation whose bump
      inserts a version <= p, even one inserted after the installation. */
  lemma TriggeredReload(steps: seq<Step>, i: nat, j: nat, t: nat)
    requires RunsFrom(INIT, steps) && i < j <= |steps| && steps[i] == Install(t)
    ensures t in At(steps, i).reloads && At(steps, i).reloads[t].Loading?
    ensures var r := At(steps, i).reloads[t];
            var c := CacheOf(At(steps, i + 1), r.g);
            && r.trigger <= c.version <= MaxVersion(At(steps, i).versions)
            && c.routesAt <= |At(steps, i).log| && c.policiesAt <= |At(steps, i).log|
            && Covers(At(steps, j).bumped, r.trigger, c.routesAt)
            && Covers(At(steps, j).bumped, r.trigger, c.policiesAt)
            && EnabledListing(c.routes, Replay(At(steps, i).log[..c.routesAt]).routes)
            && c.policies == Replay(At(steps, i).log[..c.policiesAt]).policies
  {
    AtStep(steps, i);
    InvHolds(steps, i);
    CoveringHolds(steps, i, j);
    InstalledInv(At(steps, i), t);
    assert ReloadInv(At(steps, i), At(steps, i).reloads[t]);
  }

  /** No gateway ever records a version the database does not store. */
  lemma CacheNeverAhead(steps: seq<Step>, i: nat, g: nat)
    requires RunsFrom(INIT, steps) && i <= |steps|
    ensures CacheOf(At(steps, i), g).version <= MaxVersion(At(steps, i).versions)
  {
    InvHolds(steps, i);
    assert CacheInv(At(steps, i), CacheOf(At(steps, i), g));
  }

  /** Every mutation written so far has inserted its version. */
  ghost predicate AllBumped(s: State) {
    forall m :: 0 <= m < |s.log| ==> m in s.bumped
  }

  /** The latest mutation has inserted its version, whatever became of the
      bumps before it. */
  predicate LastBumped(s: State) {
    s.log == [] || |s.log| - 1 in s.bumped
  }

  /** The gateway serves exactly the database's enabled routes and policies. */
  ghost predicate Fresh(s: State, g: nat) {
    && EnabledListing(CacheOf(s, g).routes, Replay(s.log).routes)
    && CacheOf(s, g).policies == Replay(s.log).policies
  }

  predicate TouchesRoutes(w: Write) {
    w.InsertRoute? || w.UpdateRoute? || w.DeleteRoute?
  }

  predicate TouchesPolicies(w: Write) {
    w.UpsertPolicy? || w.DeletePolicy? || w.DeleteRoute?
  }

  /** Write `m` ran after the snapshot's routes (or policies) were read and
      changes what had been read. */
  predicate Missed(s: State, c: Cached, m: nat)
    requires m < |s.log|
  {
    || (c.routesAt <= m && TouchesRoutes(s.log[m]))
    || (c.policiesAt <= m && TouchesPolicies(s.log[m]))
  }

  /** It also ran before the version was read, within that very load. */
  predicate Overlapped(s: State, c: Cached, m: nat)
    requires m < |s.log|
  {
    m < c.versionAt && Missed(s, c, m)
  }

  lemma {:induction false} ReplayUntouched(log: seq<Write>, n: nat)
    requires n <= |log|
    ensures (forall m :: n <= m < |log| ==> !TouchesRoutes(log[m])) ==>
              Replay(log[..n]).routes == Replay(log).routes
    ensures (forall m :: n <= m < |log| ==> !TouchesPolicies(log[m])) ==>
              Replay(log[..n]).policies == Replay(log).policies
  {
    if n < |log| {
      ReplayUntouched(log[..|log| - 1], n);
      assert log[..|log| - 1][..n] == log[..n];
    } else {
      assert log[..n] == log;
    }
  }

  /** What a gateway at the maximum had not seen when it read that version has
      not been bumped. */
  lemma UnseenIsUnbumped(steps: seq<Step>, i: nat, g: nat, m: nat)
    requires RunsFrom(INIT, steps) && i <= |steps|
    requires CacheOf(At(steps, i), g).version == MaxVersion(At(steps, i).versions)
    requires CacheOf(At(steps, i), g).versionAt <= m
    ensures m !in At(steps, i).bumped
  {
    InvHolds(steps, i);
    CoveringHolds(steps, i, i);
    var s := At(steps, i);
    var c := CacheOf(s, g);
    assert Covers(s.bumped, c.version, c.versionAt);
  }

  /** Once the latest mutation is bumped, such a gateway read its version when
      the log was already complete. */
  lemma VersionReadSawEverything(steps: seq<Step>, i: nat, g: nat)
    requires RunsFrom(INIT, steps) && i <= |steps|
    requires LastBumped(At(steps, i))
    requires CacheOf(At(steps, i), g).version == MaxVersion(At(steps, i).versions)
    ensures CacheOf(At(steps, i), g).versionAt == |At(steps, i).log|
  {
    hide At, MaxVersion, LogInv, AdminsInv, ReloadInv, RoutesSeen, Replay, RunsFrom;
    var s := At(steps, i);
    InvHolds(steps, i);
    assert CacheInv(s, CacheOf(s, g));
    if CacheOf(s, g).versionAt < |s.log| {
      UnseenIsUnbumped(steps, i, g, |s.log| - 1);
    }
  }

  /** The row of a table as a gateway would hold it, if it would. */
  function EnabledRow(t: Tables, k: string): Option<Route> {
    if k in t.routes && t.routes[k].enabled then Some(t.routes[k]) else None
  }

  function PolicyRow(t: Tables, k: string): Option<Policy> {
    if k in t.policies then Some(t.policies[k]) else None
  }

  /** Write `m` came after read `at`, made `view` of the tables what it still
      is, and that is not what was read. */
  ghost predicate Changed<T>(log: seq<Write>, view: Tables -> T, at: nat, m: nat)
    requires at <= |log| && m < |log|
  {
    && at <= m
    && view(Replay(log[..m + 1])) != view(Replay(log[..m]))
    && view(Replay(log[..m + 1])) == view(Replay(log)) != view(Replay(log[..at]))
  }

  /** Something differs from what was read exactly if some write changed it for
      good: the last that touched it. */
  lemma {:induction false} LastChange<T>(log: seq<Write>, view: Tables -> T, at: nat)
    requires at <= |log|
    ensures view(Replay(log)) != view(Replay(log[..at])) <==>
              exists m :: 0 <= m < |log| && Changed(log, view, at, m)
  {
    hide Replay;
    if at == |log| {
      assert log[..at] == log;
    } else {
      var n := |log| - 1;
      var init := log[..n];
      assert log[..n + 1] == log && init[..at] == log[..at];
      if view(Replay(log)) != view(Replay(log[..at])) {
        if view(Replay(log)) != view(Replay(init)) {
          assert Changed(log, view, at, n);
        } else {
          LastChange(init, view, at);
          var m :| 0 <= m < |init| && Changed(init, view, at, m);
          assert init[..m] == log[..m] && init[..m + 1] == log[..m + 1];
          assert Changed(log, view, at, m);
        }
      }
    }
  }

  function RouteView(k: string): Tables -> Option<Route> { (t: Tables) => EnabledRow(t, k) }

  function PolicyView(k: string): Tables -> Option<Policy> { (t: Tables) => PolicyRow(t, k) }

  ghost predicate LostFor(s: State, c: Cached, m: nat, k: string)
    requires m < |s.log| && c.routesAt <= |s.log| && c.policiesAt <= |s.log|
  {
    Changed(s.log, RouteView(k), c.routesAt, m) || Changed(s.log, PolicyView(k), c.policiesAt, m)
  }

  /** Write `m` is lost to the snapshot: it ran after the snapshot's routes (or
      policies) were read, and the enabled route (or policy) it left under some
      route id is the one the database still has, and not the one read. */
  ghost predicate Lost(s: State, c: Cached, m: nat)
    requires m < |s.log| && c.routesAt <= |s.log| && c.policiesAt <= |s.log|
  {
    exists k :: LostFor(s, c, m, k)
  }

  /** A listing of one table lists another exactly if the enabled rows agree. */
  lemma SameListing(rows: seq<Route>, t: Tables, u: Tables)
    requires Consistent(t) && Consistent(u) && EnabledListing(rows, t.routes)
    ensures EnabledListing(rows, u.routes) <==> forall k :: EnabledRow(t, k) == EnabledRow(u, k)
  {
    if EnabledListing(rows, u.routes) {
      forall k
        ensures EnabledRow(t, k) == EnabledRow(u, k)
      {
        if EnabledRow(t, k).Some? {
          assert t.routes[k] in rows;
        }
        if EnabledRow(u, k).Some? {
          assert u.routes[k] in rows;
        }
      }
    }
    if forall k :: EnabledRow(t, k) == EnabledRow(u, k) {
      forall r
        ensures r in rows <==> r.id in u.routes && u.routes[r.id] == r && r.enabled
      {
        assert EnabledRow(t, r.id) == EnabledRow(u, r.id);
      }
    }
  }

  lemma SamePolicies(t: Tables, u: Tables)
    ensures t.policies == u.policies <==> forall k :: PolicyRow(t, k) == PolicyRow(u, k)
  {
    if forall k :: PolicyRow(t, k) == PolicyRow(u, k) {
      forall k
        ensures k in t.policies <==> k in u.policies
        ensures k in t.policies ==> t.policies[k] == u.policies[k]
      {
        assert PolicyRow(t, k) == PolicyRow(u, k);
      }
    }
  }

  /** A cache is fresh exactly if every row it would hold is the one it read. */
  lemma FreshByRows(s: State, g: nat)
    requires LogInv(s.log) && CacheInv(s, CacheOf(s, g))
    ensures var c := CacheOf(s, g);
            Fresh(s, g) <==>
              && (forall k :: RouteView(k)(Replay(s.log)) == RouteView(k)(Replay(s.log[..c.routesAt])))
              && (forall k :: PolicyView(k)(Replay(s.log)) == PolicyView(k)(Replay(s.log[..c.policiesAt])))
  {
    hide Replay, Consistent, EnabledListing, EnabledRow, PolicyRow;
    var c := CacheOf(s, g);
    var now, read, readP := Replay(s.log), Replay(s.log[..c.routesAt]), Replay(s.log[..c.policiesAt]);
    assert s.log[..|s.log|] == s.log;
    SameListing(c.routes, read, now);
    SamePolicies(readP, now);
    assert forall k :: RouteView(k)(now) == EnabledRow(now, k) && RouteView(k)(read) == EnabledRow(read, k);
    assert forall k :: PolicyView(k)(now) == PolicyRow(now, k) && PolicyView(k)(readP) == PolicyRow(readP, k);
  }

  /** In every reachable state, at the maximum or not, a gateway is stale exactly
      if some write is lost to its cache. */
  lemma StaleIffLost(steps: seq<Step>, i: nat, g: nat)
    requires RunsFrom(INIT, steps) && i <= |steps|
    ensures CacheInv(At(steps, i), CacheOf(At(steps, i), g))
    ensures var s := At(steps, i); var c := CacheOf(s, g);
            !Fresh(s, g) <==> exists m :: 0 <= m < |s.log| && Lost(s, c, m)
  {
    InvHolds(steps, i);
    StaleStateIffLost(At(steps, i), g);
  }

  lemma RowLost(s: State, c: Cached, k: string)
    requires c.routesAt <= |s.log| && c.policiesAt <= |s.log|
    ensures (exists m :: 0 <= m < |s.log| && LostFor(s, c, m, k)) <==>
              || RouteView(k)(Replay(s.log)) != RouteView(k)(Replay(s.log[..c.routesAt]))
              || PolicyView(k)(Replay(s.log)) != PolicyView(k)(Replay(s.log[..c.policiesAt]))
  {
    hide Replay, Changed, RouteView, PolicyView;
    LastChange(s.log, RouteView(k), c.routesAt);
    LastChange(s.log, PolicyView(k), c.policiesAt);
    if m :| 0 <= m < |s.log| && Changed(s.log, RouteView(k), c.routesAt, m) {
      assert LostFor(s, c, m, k);
    } else if m :| 0 <= m < |s.log| && Changed(s.log, PolicyView(k), c.policiesAt, m) {
      assert LostFor(s, c, m, k);
    }
  }

  lemma StaleStateIffLost(s: State, g: nat)
    requires LogInv(s.log) && CacheInv(s, CacheOf(s, g))
    ensures !Fresh(s, g) <==> exists m :: 0 <= m < |s.log| && Lost(s, CacheOf(s, g), m)
  {
    hide Replay, Fresh, LostFor, RouteView, PolicyView, LogInv;
    var c := CacheOf(s, g);
    FreshByRows(s, g);
    forall k {
      RowLost(s, c, k);
    }
    if !Fresh(s, g) {
      var k :| RouteView(k)(Replay(s.log)) != RouteView(k)(Replay(s.log[..c.routesAt]))
            || PolicyView(k)(Replay(s.log)) != PolicyView(k)(Replay(s.log[..c.policiesAt]));
      var m :| 0 <= m < |s.log| && LostFor(s, c, m, k);
      assert Lost(s, c, m);
    }
    if m :| 0 <= m < |s.log| && Lost(s, c, m) {
      var k :| LostFor(s, c, m, k);
      RowLost(s, c, k);
      assert !Fresh(s, g);
    }
  }

  /** A lost write is one of the kind that was read, made after the read. */
  lemma LostIsMissed(s: State, c: Cached, m: nat)
    requires m < |s.log| && c.routesAt <= |s.log| && c.policiesAt <= |s.log| && Lost(s, c, m)
    ensures Missed(s, c, m)
  {
    hide Replay, Effect;
    var k :| LostFor(s, c, m, k);
    assert s.log[..m + 1] == s.log[..m] + [s.log[m]];
    ReplayAppend(s.log[..m], s.log[m]);
    OtherTableKept(Replay(s.log[..m]), s.log[m]);
  }

  lemma OtherTableKept(t: Tables, w: Write)
    ensures !TouchesRoutes(w) ==> Effect(t, w).routes == t.routes
    ensures !TouchesPolicies(w) ==> Effect(t, w).policies == t.policies
  {
  }

  /** Exactly why a gateway at the maximum is stale, in every reachable state:
      some write is lost to its cache, and each such write either overlapped the
      load that filled the cache or came after it and has inserted no version,
      because its bump is pending or has failed. */
  lemma WhyStale(steps: seq<Step>, i: nat, g: nat)
    requires RunsFrom(INIT, steps) && i <= |steps|
    requires CacheOf(At(steps, i), g).version == MaxVersion(At(steps, i).versions)
    ensures CacheInv(At(steps, i), CacheOf(At(steps, i), g))
    ensures var s := At(steps, i); var c := CacheOf(s, g);
      && (!Fresh(s, g) <==> exists m :: 0 <= m < |s.log| && Lost(s, c, m))
      && (forall m :: 0 <= m < |s.log| && Lost(s, c, m) ==>
            Missed(s, c, m) && (Overlapped(s, c, m) || (c.versionAt <= m && m !in s.bumped)))
  {
    StaleIffLost(steps, i, g);
    hide At, Fresh, MaxVersion, TouchesRoutes, TouchesPolicies, Lost;
    var s := At(steps, i);
    var c := CacheOf(s, g);
    forall m | 0 <= m < |s.log| && Lost(s, c, m)
      ensures Missed(s, c, m) && (Overlapped(s, c, m) || (c.versionAt <= m && m !in s.bumped))
    {
      LostIsMissed(s, c, m);
      if c.versionAt <= m {
        UnseenIsUnbumped(steps, i, g, m);
      }
    }
  }

  /** Once the latest mutation is bumped only the first way is left: the
      version read saw the whole log, and the cache is stale exactly if a write
      that overlapped its own load is lost to it. */
  lemma StaleOnlyByOverlap(steps: seq<Step>, i: nat, g: nat)
    requires RunsFrom(INIT, steps) && i <= |steps|
    requires LastBumped(At(steps, i))
    requires CacheOf(At(steps, i), g).version == MaxVersion(At(steps, i).versions)
    ensures CacheInv(At(steps, i), CacheOf(At(steps, i), g))
    ensures var s := At(steps, i); var c := CacheOf(s, g);
      && c.versionAt == |s.log|
      && (!Fresh(s, g) <==> exists m :: 0 <= m < |s.log| && Lost(s, c, m) && Overlapped(s, c, m))
  {
    hide At, Fresh, MaxVersion, Lost, Missed;
    VersionReadSawEverything(steps, i, g);
    WhyStale(steps, i, g);
    var s := At(steps, i);
    var c := CacheOf(s, g);
    if !Fresh(s, g) {
      var m :| 0 <= m < |s.log| && Lost(s, c, m);
      assert Overlapped(s, c, m);
    }
  }

  /** Reloads that read the version no later than the routes and policies. */
  ghost predicate VersionFirst(steps: seq<Step>)
    requires RunsFrom(INIT, steps)
  {
    forall i :: 0 <= i < |steps| && (steps[i].FetchRoutes? || steps[i].FetchPolicies?) ==>
      var reloads := At(steps, i).reloads;
      steps[i].t in reloads && reloads[steps[i].t].Loading? && reloads[steps[i].t].version.Some?
  }

  ghost predicate LoadVersionFirst(r: Reload) {
    r.Loading? ==>
      && (r.routes.Some? ==> r.version.Some? && r.version.value.at <= r.routes.value.at)
      && (r.policies.Some? ==> r.version.Some? && r.version.value.at <= r.policies.value.at)
  }

  predicate CacheVersionFirst(c: Cached) {
    c.versionAt <= c.routesAt && c.versionAt <= c.policiesAt
  }

  ghost predicate VersionReadFirst(s: State) {
    && (forall t :: t in s.reloads ==> LoadVersionFirst(s.reloads[t]))
    && (forall g :: CacheVersionFirst(CacheOf(s, g)))
  }

  lemma VersionReadFirstStep(s: State, st: Step)
    requires Inv(s) && VersionReadFirst(s) && Enabled(s, st)
    requires st.FetchRoutes? || st.FetchPolicies? ==> s.reloads[st.t].version.Some?
    ensures VersionReadFirst(Do(s, st))
  {
    hide Replay, Effect, Accepted, EnabledListing, PolicyListing, MaxVersion, Consistent, PolicyMap;
    hide LogInv, AdminsInv, CacheInv;
    var s' := Do(s, st);
    forall t | t in s'.reloads
      ensures LoadVersionFirst(s'.reloads[t])
    {
      if t in s.reloads {
        assert ReloadInv(s, s.reloads[t]) && LoadVersionFirst(s.reloads[t]);
      }
    }
    forall g
      ensures CacheVersionFirst(CacheOf(s', g))
    {
      if st.Install? && g == s.reloads[st.t].g {
        assert LoadVersionFirst(s.reloads[st.t]);
        assert CacheOf(s', g) == Snapshot(s.reloads[st.t]);
      } else {
        assert CacheOf(s', g) == CacheOf(s, g);
      }
    }
  }

  lemma {:induction false} VersionReadFirstHolds(steps: seq<Step>, i: nat)
    requires RunsFrom(INIT, steps) && i <= |steps| && VersionFirst(steps)
    ensures VersionReadFirst(At(steps, i))
  {
    if i == 0 {
      assert steps[..0] == [];
    } else {
      VersionReadFirstHolds(steps, i - 1);
      AtStep(steps, i - 1);
      InvHolds(steps, i - 1);
      VersionReadFirstStep(At(steps, i - 1), steps[i - 1]);
    }
  }

  /** With the version read first, a gateway whose version is the stored maximum
      is never stale once the latest mutation is bumped. */
  lemma VersionFirstIsFresh(steps: seq<Step>, i: nat, g: nat)
    requires RunsFrom(INIT, steps) && i <= |steps| && VersionFirst(steps)
    requires LastBumped(At(steps, i))
    requires CacheOf(At(steps, i), g).version == MaxVersion(At(steps, i).versions)
    ensures Fresh(At(steps, i), g)
  {
    hide At, Fresh, MaxVersion;
    StaleOnlyByOverlap(steps, i, g);
    VersionReadFirstHolds(steps, i);
    var s := At(steps, i);
    var c := CacheOf(s, g);
    assert CacheVersionFirst(c);
    assert forall m :: 0 <= m < |s.log| ==> !Overlapped(s, c, m);
  }

  /** No write and no version insert runs at steps i .. j - 1. */
  ghost predicate Quiet(steps: seq<Step>, i: nat, j: nat) {
    forall k :: i <= k < j && k < |steps| ==> !steps[k].WriteRow? && !steps[k].InsertVersion?
  }

  lemma {:induction false} QuietKeepsDatabase(steps: seq<Step>, i: nat, j: nat)
    requires RunsFrom(INIT, steps) && i <= j <= |steps| && Quiet(steps, i, j)
    ensures At(steps, j).log == At(steps, i).log
    ensures At(steps, j).versions == At(steps, i).versions
    ensures At(steps, j).bumped == At(steps, i).bumped
  {
    if i < j {
      QuietKeepsDatabase(steps, i, j - 1);
      AtStep(steps, j - 1);
    }
  }

  /** What reload `t` has read, if it was started after state `s`. */
  ghost predicate ReadsFrom(s: State, r: Reload) {
    match r
    case Polled(_, latest) => latest == MaxVersion(s.versions)
    case Loading(_, _, routes, policies, version) =>
      && (routes.Some? ==> routes.value.at == |s.log|)
      && (policies.Some? ==> policies.value.at == |s.log|)
      && (version.Some? ==> version.value == Answer(MaxVersion(s.versions), |s.log|))
  }

  lemma ReadsFromStep(s0: State, s: State, st: Step, t: nat)
    requires Enabled(s, st) && s.log == s0.log && s.versions == s0.versions
    requires t in s.reloads ==> ReadsFrom(s0, s.reloads[t])
    ensures t in Do(s, st).reloads ==> ReadsFrom(s0, Do(s, st).reloads[t])
  {
    hide Replay, Effect, Accepted, EnabledListing, PolicyListing, MaxVersion;
  }

  lemma {:induction false} QuietReads(steps: seq<Step>, i: nat, j: nat, t: nat)
    requires RunsFrom(INIT, steps) && i <= j <= |steps| && Quiet(steps, i, j)
    requires t !in At(steps, i).reloads
    ensures t in At(steps, j).reloads ==> ReadsFrom(At(steps, i), At(steps, j).reloads[t])
  {
    hide At, Do, Enabled, ReadsFrom;
    if i < j {
      QuietReads(steps, i, j - 1, t);
      QuietKeepsDatabase(steps, i, j - 1);
      AtStep(steps, j - 1);
      ReadsFromStep(At(steps, i), At(steps, j - 1), steps[j - 1], t);
    }
  }

  /** From any state, a reload that starts and installs while no mutation runs
      leaves its gateway fresh and at the maximum,
      whatever other gateways and polls do meanwhile and in whatever order its
      three reads run. */
  lemma QuietReload(steps: seq<Step>, i: nat, j: nat, t: nat)
    requires RunsFrom(INIT, steps) && i <= j < |steps| && Quiet(steps, i, j)
    requires t !in At(steps, i).reloads && steps[j] == Install(t)
    ensures t in At(steps, j).reloads
    ensures var g := At(steps, j).reloads[t].g;
            && Fresh(At(steps, j + 1), g)
            && CacheOf(At(steps, j + 1), g).version == MaxVersion(At(steps, j + 1).versions)
  {
    AtStep(steps, j);
    QuietReads(steps, i, j, t);
    QuietKeepsDatabase(steps, i, j);
    InvHolds(steps, j + 1);
    var s' := At(steps, j + 1);
    var g := At(steps, j).reloads[t].g;
    assert CacheInv(s', CacheOf(s', g));
    assert s'.log[..|s'.log|] == s'.log;
  }

  /** Gateway `g` records the stored maximum and has no load in flight. */
  ghost predicate Settled(s: State, g: nat) {
    && CacheOf(s, g).version == MaxVersion(s.versions)
    && forall t :: t in s.reloads && s.reloads[t].g == g ==> s.reloads[t].Polled?
  }

  lemma SettledStep(s: State, st: Step, g: nat)
    requires Inv(s) && Enabled(s, st) && Settled(s, g)
    requires !st.InsertVersion? && !(st.StartLoad? && st.g == g)
    ensures Settled(Do(s, st), g) && CacheOf(Do(s, st), g) == CacheOf(s, g)
  {
    hide Replay, Effect, Accepted, EnabledListing, PolicyListing, MaxVersion, Consistent, LogInv, AdminsInv, CacheInv;
    if st.Compare? {
      assert ReloadInv(s, s.reloads[st.t]);
    }
  }

  /** A settled gateway keeps its cache, fresh or stale, through any number of
      polls: only a new version (or a restart) makes it load again. */
  lemma {:induction false} SettledStays(steps: seq<Step>, i: nat, j: nat, g: nat)
    requires RunsFrom(INIT, steps) && i <= j <= |steps|
    requires Settled(At(steps, i), g)
    requires forall k :: i <= k < j ==> !steps[k].InsertVersion? && !(steps[k].StartLoad? && steps[k].g == g)
    ensures Settled(At(steps, j), g)
    ensures CacheOf(At(steps, j), g) == CacheOf(At(steps, i), g)
  {
    hide At, Settled, Inv, Do, Enabled;
    if i < j {
      SettledStays(steps, i, j - 1, g);
      AtStep(steps, j - 1);
      InvHolds(steps, j - 1);
      SettledStep(At(steps, j - 1), steps[j - 1], g);
    }
  }

  /** The step ends load `t`, or installs another one on its gateway `g`. */
  predicate Disturbs(s: State, st: Step, t: nat, g: nat) {
    || st == ReloadFails(t)
    || (st.Install? && st.t in s.reloads && (st.t == t || s.reloads[st.t].g == g))
  }

  /** Between steps `i` and `j` nothing disturbs load `t` of gateway `g`. */
  ghost predicate Alone(steps: seq<Step>, i: nat, j: nat, t: nat, g: nat)
    requires RunsFrom(INIT, steps) && i <= j <= |steps|
  {
    forall k :: i < k < j ==> !Disturbs(At(steps, k), steps[k], t, g)
  }

  /** Load `t` of gateway `g` is under way with this cache, and has read no
      version below `least`. */
  predicate UnderWay(s: State, t: nat, g: nat, least: nat, cache: Cached) {
    && CacheOf(s, g) == cache && least <= MaxVersion(s.versions)
    && t in s.reloads && s.reloads[t].Loading? && s.reloads[t].g == g
    && (s.reloads[t].version.Some? ==> least <= s.reloads[t].version.value.value)
  }

  lemma UnderWayStep(s: State, st: Step, t: nat, g: nat, least: nat, cache: Cached)
    requires Enabled(s, st) && UnderWay(s, t, g, least, cache)
    requires !Disturbs(s, st, t, g)
    ensures UnderWay(Do(s, st), t, g, least, cache)
  {
    hide Replay, Effect, Accepted, EnabledListing, PolicyListing, MaxVersion, Consistent, PolicyMap;
    StepGrows(s, st);
  }

  lemma {:induction false} AloneKeeps(steps: seq<Step>, i: nat, j: nat, t: nat, g: nat, least: nat, cache: Cached)
    requires RunsFrom(INIT, steps) && i < j <= |steps| && Alone(steps, i, j, t, g)
    requires UnderWay(At(steps, i + 1), t, g, least, cache)
    ensures UnderWay(At(steps, j), t, g, least, cache)
  {
    hide At, Do, Enabled, UnderWay;
    if i + 1 < j {
      AloneKeeps(steps, i, j - 1, t, g, least, cache);
      AtStep(steps, j - 1);
      UnderWayStep(At(steps, j - 1), steps[j - 1], t, g, least, cache);
    }
  }

  /** Step `i` begins load `t` of gateway `g`: its poll found a newer version,
      or the gateway started up. */
  ghost predicate Begins(steps: seq<Step>, i: nat, t: nat, g: nat)
    requires RunsFrom(INIT, steps) && i < |steps|
  {
    || (steps[i] == Compare(t) && t in At(steps, i + 1).reloads && At(steps, i + 1).reloads[t].g == g)
    || steps[i] == StartLoad(t, g)
  }

  lemma BeginsUnderWay(s: State, st: Step, t: nat, g: nat)
    requires Inv(s) && Enabled(s, st)
    requires (st == Compare(t) && t in Do(s, st).reloads && Do(s, st).reloads[t].g == g) || st == StartLoad(t, g)
    ensures UnderWay(Do(s, st), t, g, MaxVersion(s.versions), CacheOf(s, g))
    ensures st.Compare? ==> CacheOf(s, g).version < MaxVersion(s.versions)
  {
    hide Replay, Effect, Accepted, EnabledListing, PolicyListing, MaxVersion, Consistent, PolicyMap;
    if st.Compare? {
      assert ReloadInv(s, s.reloads[t]);
    }
    assert CacheInv(s, CacheOf(s, g));
  }

  lemma InstallUnderWay(s: State, t: nat, g: nat, least: nat, cache: Cached)
    requires Enabled(s, Install(t)) && UnderWay(s, t, g, least, cache)
    ensures CacheOf(Do(s, Install(t)), g).version >= least
  {
    hide MaxVersion, PolicyMap;
  }

  /** A gateway's version can go down only through overlapping reloads: a load,
      triggered or at startup, that no other installation on the same gateway
      overtakes installs at least the maximum stored when it began. So the
      version does not fall, and a triggered load raises it. */
  lemma LoneReloadAdvances(steps: seq<Step>, i: nat, j: nat, t: nat, g: nat)
    requires RunsFrom(INIT, steps) && i < j < |steps|
    requires Begins(steps, i, t, g) && steps[j] == Install(t)
    requires Alone(steps, i, j, t, g)
    ensures CacheOf(At(steps, j), g) == CacheOf(At(steps, i), g)
    ensures CacheOf(At(steps, j + 1), g).version >= MaxVersion(At(steps, i).versions)
                                                 >= CacheOf(At(steps, j), g).version
    ensures steps[i].Compare? ==> CacheOf(At(steps, j + 1), g).version > CacheOf(At(steps, j), g).version
  {
    hide At, Do, Enabled, Disturbs, MaxVersion;
    var s := At(steps, i);
    AtStep(steps, i);
    AtStep(steps, j);
    InvHolds(steps, i);
    CacheNeverAhead(steps, i, g);
    BeginsUnderWay(s, steps[i], t, g);
    AloneKeeps(steps, i, j, t, g, MaxVersion(s.versions), CacheOf(s, g));
    InstallUnderWay(At(steps, j), t, g, MaxVersion(s.versions), CacheOf(s, g));
  }

  /** Row `r` is stored and enabled. */
  predicate Serves(table: map<string, Route>, r: Route) {
    r.id in table && table[r.id] == r && r.enabled
  }

  /** The whole chain: a fresh gateway routes every path to a longest matching
      enabled route of the database, and nowhere exactly when there is none. */
  lemma FreshRoutesByDatabase(s: State, g: nat, path: string)
    requires Fresh(s, g)
    ensures var m := RouteMatcher.MatchRoute(path, CacheOf(s, g).routes);
            var table := Replay(s.log).routes;
      && (m.None? <==> forall r :: Serves(table, r) ==> !RouteMatcher.SegmentPrefix(r.pathPrefix, path))
      && (m.Some? ==>
            && Serves(table, m.value.route)
            && RouteMatcher.SegmentPrefix(m.value.route.pathPrefix, path)
            && forall r :: Serves(table, r) && RouteMatcher.SegmentPrefix(r.pathPrefix, path)
                 ==> r.pathPrefix <= m.value.route.pathPrefix)
  {
    var rows, table := CacheOf(s, g).routes, Replay(s.log).routes;
    RouteMatcher.MatchIsLongest(path, rows);
    assert forall r :: r in rows <==> Serves(table, r);
  }
}
