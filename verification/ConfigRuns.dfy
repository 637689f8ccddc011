/** Runs that show where the guarantees of the reload protocol end. */
module ConfigRuns {
  import opened Strings
  import opened Models
  import opened ConfigTables
  import opened ConfigProtocol
  import opened ConfigInvariants
  import opened ConfigTheorems

  /** Two enabled routes the database can hold together. */
  predicate TwoRoutes(a: Route, b: Route) {
    && a.id != b.id && a.name != b.name
    && a.enabled && b.enabled
    && Fits(a) && Fits(b)
  }

  lemma LastState(steps: seq<Step>)
    requires RunsFrom(INIT, steps)
    ensures At(steps, |steps|) == After(INIT, steps)
  {
    assert steps[..|steps|] == steps;
  }

  /** One admin writes a route and bumps, with nothing in between. */
  lemma AddRoute(steps: seq<Step>, a: nat, r: Route) returns (longer: seq<Step>)
    requires RunsFrom(INIT, steps)
    requires var s := After(INIT, steps); a !in s.admins && Accepted(Replay(s.log), InsertRoute(r))
    ensures RunsFrom(INIT, longer)
    ensures var s := After(INIT, steps);
            var v := MaxVersion(s.versions) + 1;
            After(INIT, longer) == s.(log := s.log + [InsertRoute(r)], versions := s.versions + [v],
                                      bumped := s.bumped[|s.log| := v])
  {
    hide Replay, Effect, Accepted, EnabledListing, PolicyListing, RunsFrom, MaxVersion, After;
    var s := After(INIT, steps);
    var v := MaxVersion(s.versions) + 1;
    var s1 := s.(log := s.log + [InsertRoute(r)], admins := s.admins[a := Wrote(|s.log|)]);
    var s2 := s1.(admins := s1.admins[a := ReadLatest(|s.log|, MaxVersion(s.versions))]);
    longer := Then(INIT, steps, WriteRow(a, InsertRoute(r)), s1);
    longer := Then(INIT, longer, ReadMax(a), s2);
    var s3 := s2.(versions := s2.versions + [v], bumped := s2.bumped[|s.log| := v], admins := s2.admins - {a});
    longer := Then(INIT, longer, InsertVersion(a), s3);
    assert s2.admins - {a} == s.admins;
  }

  lemma Maxima()
    ensures MaxVersion([]) == 0 && MaxVersion([1]) == 1 && MaxVersion([1, 2]) == 2
  {
    MaxVersionIsMaximum([1], 1);
    MaxVersionIsMaximum([1, 2], 2);
  }

  lemma TwoRows(a: Route, b: Route)
    requires TwoRoutes(a, b)
    ensures Replay([]) == EMPTY
    ensures Replay([InsertRoute(a)]) == Tables(map[a.id := a], map[])
    ensures Replay([InsertRoute(a), InsertRoute(b)]) == Tables(map[a.id := a, b.id := b], map[])
    ensures Accepted(Replay([]), InsertRoute(a)) && Accepted(Replay([InsertRoute(a)]), InsertRoute(b))
  {
    ReplayAppend([], InsertRoute(a));
    assert [] + [InsertRoute(a)] == [InsertRoute(a)];
    ReplayAppend([InsertRoute(a)], InsertRoute(b));
    assert [InsertRoute(a)] + [InsertRoute(b)] == [InsertRoute(a), InsertRoute(b)];
  }

  /** What the reads of these runs return. */
  lemma Listings(a: Route, b: Route)
    requires TwoRoutes(a, b)
    ensures EnabledListing([a], map[a.id := a])
    ensures EnabledListing(BothRows(a, b), map[a.id := a, b.id := b])
    ensures !EnabledListing([a], map[a.id := a, b.id := b])
    ensures PolicyListing([], map[])
  {
    var both := map[a.id := a, b.id := b];
    assert b in BothRows(a, b) && a in BothRows(a, b);
    assert b.id in both && both[b.id] == b && b !in [a];
  }

  function BothRows(a: Route, b: Route): seq<Route> {
    if |a.pathPrefix| >= |b.pathPrefix| then [a, b] else [b, a]
  }

  /** A first route is added; gateway 0 polls, begins to load and reads the routes. */
  lemma FirstRead(a: Route, b: Route) returns (steps: seq<Step>)
    requires TwoRoutes(a, b)
    ensures RunsFrom(INIT, steps)
    ensures After(INIT, steps) == State([InsertRoute(a)], [1], map[0 := 1], map[],
                                        map[0 := Loading(0, 1, Some(Answer([a], 1)), None, None)], map[])
  {
    hide Replay, Effect, Accepted, EnabledListing, PolicyListing, MaxVersion;
    TwoRows(a, b);
    Listings(a, b);
    steps := AddRoute([], 0, a);
    assert [] + [InsertRoute(a)] == [InsertRoute(a)];
    var s1 := State([InsertRoute(a)], [1], map[0 := 1], map[], map[], map[]);
    Maxima();
    assert After(INIT, steps) == s1;
    steps := BeginReload(INIT, steps, 0, 0);
    var s2 := s1.(reloads := map[0 := Loading(0, 1, Some(Answer([a], 1)), None, None)]);
    steps := Then(INIT, steps, FetchRoutes(0, [a]), s2);
  }

  /** A second route is added before the reload's other two reads. */
  lemma ReadThenAdd(a: Route, b: Route) returns (steps: seq<Step>)
    requires TwoRoutes(a, b)
    ensures RunsFrom(INIT, steps)
    ensures After(INIT, steps) == State([InsertRoute(a), InsertRoute(b)], [1, 2], map[0 := 1, 1 := 2], map[],
                                        map[0 := Loading(0, 1, Some(Answer([a], 1)), None, None)], map[])
  {
    hide Replay, Effect, Accepted, EnabledListing, PolicyListing, RunsFrom, MaxVersion;
    TwoRows(a, b);
    steps := FirstRead(a, b);
    Maxima();
    steps := AddRoute(steps, 0, b);
  }

  lemma InstallStale(a: Route, b: Route) returns (steps: seq<Step>)
    requires TwoRoutes(a, b)
    ensures RunsFrom(INIT, steps)
    ensures After(INIT, steps) == State([InsertRoute(a), InsertRoute(b)], [1, 2], map[0 := 1, 1 := 2], map[], map[],
                                        map[0 := Cached([a], map[], 2, 1, 2, 2)])
  {
    hide Replay, Effect, Accepted, EnabledListing, PolicyListing, RunsFrom, MaxVersion;
    TwoRows(a, b);
    Listings(a, b);
    steps := ReadThenAdd(a, b);
    var s1 := After(INIT, steps);
    Maxima();
    steps := FinishReads(INIT, steps, 0, []);
    var r := Loading(0, 1, Some(Answer([a], 1)), Some(Answer([], 2)), Some(Answer(2, 2)));
    assert Snapshot(r) == Cached([a], map[], 2, 1, 2, 2);
    assert map[0 := r] - {0} == map[];
    steps := Then(INIT, steps, Install(0), s1.(reloads := map[], caches := map[0 := Snapshot(r)]));
  }

  /** The three reads of a load are unordered, so a mutation may fall between
      the route read and the version read: the gateway then records the maximum
      version without the mutation, and no poll will ever correct it. Any two
      enabled routes do; the second is lost. */
  lemma StaleAtMaximum(a: Route, b: Route) returns (steps: seq<Step>)
    requires TwoRoutes(a, b)
    ensures RunsFrom(INIT, steps)
    ensures var s := At(steps, |steps|);
            && AllBumped(s) && Settled(s, 0) && !Fresh(s, 0)
            && Replay(s.log).routes == map[a.id := a, b.id := b]
            && CacheOf(s, 0).routes == [a]
  {
    steps := InstallStale(a, b);
    StaleState(After(INIT, steps), a, b);
    LastState(steps);
  }

  lemma StaleState(s: State, a: Route, b: Route)
    requires TwoRoutes(a, b)
    requires s.log == [InsertRoute(a), InsertRoute(b)] && s.versions == [1, 2] && s.bumped == map[0 := 1, 1 := 2]
    requires s.reloads == map[] && s.caches == map[0 := Cached([a], map[], 2, 1, 2, 2)]
    ensures AllBumped(s) && Settled(s, 0) && !Fresh(s, 0)
    ensures Replay(s.log).routes == map[a.id := a, b.id := b] && CacheOf(s, 0).routes == [a]
  {
    hide Replay, Effect, Accepted, EnabledListing, PolicyListing;
    TwoRows(a, b);
    Listings(a, b);
    Maxima();
  }

  /** A write whose bump fails is in the tables but has no version. Wherever a
      fresh, settled gateway stands, one such insertion of an enabled route
      leaves it settled and stale, with nothing in flight that would help. */
  lemma FailedBumpIsStale(steps: seq<Step>, a: nat, r: Route, g: nat) returns (longer: seq<Step>)
    requires RunsFrom(INIT, steps)
    requires var s := After(INIT, steps);
      && a !in s.admins && Accepted(Replay(s.log), InsertRoute(r)) && r.enabled
      && Settled(s, g) && Fresh(s, g)
    ensures longer == steps + [WriteRow(a, InsertRoute(r)), AdminFails(a)] && RunsFrom(INIT, longer)
    ensures var s, s' := After(INIT, steps), After(INIT, longer);
      && Settled(s', g) && !Fresh(s', g) && CacheOf(s', g) == CacheOf(s, g)
      && s'.admins == s.admins && s'.reloads == s.reloads
      && |s'.log| - 1 !in s'.bumped
  {
    hide Replay, Effect, Accepted, EnabledListing, PolicyListing, MaxVersion, Fresh, Settled;
    var s := After(INIT, steps);
    var s1 := s.(log := s.log + [InsertRoute(r)], admins := s.admins[a := Wrote(|s.log|)]);
    longer := Then(INIT, steps, WriteRow(a, InsertRoute(r)), s1);
    assert s1.admins - {a} == s.admins;
    var s2 := s1.(admins := s.admins);
    longer := Then(INIT, longer, AdminFails(a), s2);
    BeyondLogUnbumped(steps, |s.log|);
    UnversionedRow(s, r, g);
  }

  lemma UnversionedRow(s: State, r: Route, g: nat)
    requires Settled(s, g) && Fresh(s, g) && Accepted(Replay(s.log), InsertRoute(r)) && r.enabled
    ensures var s' := s.(log := s.log + [InsertRoute(r)]); Settled(s', g) && !Fresh(s', g)
  {
    hide Replay, Effect, Accepted, EnabledListing, PolicyListing, MaxVersion;
    ReplayAppend(s.log, InsertRoute(r));
    NotListed(CacheOf(s, g).routes, Replay(s.log), r);
  }

  /** No mutation beyond the log has a version. */
  lemma BeyondLogUnbumped(steps: seq<Step>, m: nat)
    requires RunsFrom(INIT, steps) && |After(INIT, steps).log| <= m
    ensures m !in After(INIT, steps).bumped
  {
    LastState(steps);
    InvHolds(steps, |steps|);
  }

  lemma NotListed(rows: seq<Route>, t: Tables, r: Route)
    requires EnabledListing(rows, t.routes) && Accepted(t, InsertRoute(r)) && r.enabled
    ensures !EnabledListing(rows, Effect(t, InsertRoute(r)).routes)
  {
    assert r !in rows;
  }

  /** Two bumps may insert the same version, and a late one may insert below the
      maximum; the theorems above hold regardless. */
  lemma VersionsCollide(a: Route, b: Route) returns (steps: seq<Step>)
    requires TwoRoutes(a, b)
    ensures RunsFrom(INIT, steps)
    ensures At(steps, |steps|).versions == [1, 1]
    ensures At(steps, |steps|).bumped == map[0 := 1, 1 := 1]
  {
    hide Replay, Effect, Accepted, EnabledListing, PolicyListing, RunsFrom;
    TwoRows(a, b);
    var wa, wb := InsertRoute(a), InsertRoute(b);
    var s1 := INIT.(log := [wa], admins := map[0 := Wrote(0)]);
    steps := Then(INIT, [], WriteRow(0, wa), s1);
    var s2 := s1.(log := [wa, wb], admins := map[0 := Wrote(0), 1 := Wrote(1)]);
    assert [wa] + [wb] == [wa, wb];
    steps := Then(INIT, steps, WriteRow(1, wb), s2);
    var s3 := s2.(admins := map[0 := ReadLatest(0, 0), 1 := Wrote(1)]);
    steps := Then(INIT, steps, ReadMax(0), s3);
    var s4 := s2.(admins := map[0 := ReadLatest(0, 0), 1 := ReadLatest(1, 0)]);
    steps := Then(INIT, steps, ReadMax(1), s4);
    var s5 := s2.(versions := [1], bumped := map[0 := 1], admins := map[1 := ReadLatest(1, 0)]);
    assert s4.admins - {0} == s5.admins;
    steps := Then(INIT, steps, InsertVersion(0), s5);
    var s6 := s2.(versions := [1, 1], bumped := map[0 := 1, 1 := 1], admins := map[]);
    assert s5.admins - {1} == s6.admins && [1] + [1] == [1, 1];
    steps := Then(INIT, steps, InsertVersion(1), s6);
    LastState(steps);
  }

  /** The timer does not wait for a slow reload, so an older load may install
      last: a gateway's recorded version can go down. */
  lemma OverlappingReloadsRegress(a: Route, b: Route) returns (steps: seq<Step>)
    requires TwoRoutes(a, b)
    ensures RunsFrom(INIT, steps) && |steps| >= 1
    ensures CacheOf(At(steps, |steps| - 1), 0).version == 2
    ensures CacheOf(At(steps, |steps|), 0).version == 1
  {
    hide Replay, Effect, Accepted, EnabledListing, PolicyListing;
    var slow, fast;
    steps, slow, fast := TwoLoads(a, b);
    var s1 := After(INIT, steps);
    var s2 := s1.(reloads := map[0 := slow], caches := map[0 := Snapshot(fast)]);
    assert map[0 := slow, 1 := fast] - {1} == map[0 := slow];
    steps := Then(INIT, steps, Install(1), s2);
    var before := steps;
    LastState(before);
    assert map[0 := slow] - {0} == map[];
    steps := Then(INIT, steps, Install(0), s1.(reloads := map[], caches := map[0 := Snapshot(slow)]));
    assert steps[..|steps| - 1] == before && before[..|before|] == before;
    LastState(steps);
  }

  function SlowLoad(a: Route): Reload {
    Loading(0, 1, Some(Answer([a], 1)), Some(Answer([], 1)), Some(Answer(1, 1)))
  }

  lemma LoadThenAdd(a: Route, b: Route) returns (steps: seq<Step>)
    requires TwoRoutes(a, b)
    ensures RunsFrom(INIT, steps)
    ensures After(INIT, steps) == State([InsertRoute(a), InsertRoute(b)], [1, 2], map[0 := 1, 1 := 2], map[],
                                        map[0 := SlowLoad(a)], map[])
  {
    hide Replay, Effect, Accepted, EnabledListing, PolicyListing, RunsFrom, MaxVersion;
    TwoRows(a, b);
    Listings(a, b);
    steps := FirstRead(a, b);
    Maxima();
    steps := FinishReads(INIT, steps, 0, []);
    var s1 := State([InsertRoute(a)], [1], map[0 := 1], map[], map[0 := SlowLoad(a)], map[]);
    assert After(INIT, steps) == s1;
    steps := AddRoute(steps, 0, b);
  }

  lemma TwoLoads(a: Route, b: Route) returns (steps: seq<Step>, slow: Reload, fast: Reload)
    requires TwoRoutes(a, b)
    ensures RunsFrom(INIT, steps)
    ensures slow == SlowLoad(a)
    ensures fast == Loading(0, 2, Some(Answer(BothRows(a, b), 2)), Some(Answer([], 2)), Some(Answer(2, 2)))
    ensures After(INIT, steps) == State([InsertRoute(a), InsertRoute(b)], [1, 2], map[0 := 1, 1 := 2], map[],
                                        map[0 := slow, 1 := fast], map[])
  {
    hide Replay, Effect, Accepted, EnabledListing, PolicyListing, RunsFrom, MaxVersion;
    TwoRows(a, b);
    Listings(a, b);
    slow := SlowLoad(a);
    fast := Loading(0, 2, Some(Answer(BothRows(a, b), 2)), Some(Answer([], 2)), Some(Answer(2, 2)));
    steps := LoadThenAdd(a, b);
    var s2 := After(INIT, steps);
    Maxima();
    steps := BeginReload(INIT, steps, 1, 0);
    var q1 := Loading(0, 2, Some(Answer(BothRows(a, b), 2)), None, None);
    steps := Then(INIT, steps, FetchRoutes(1, BothRows(a, b)), s2.(reloads := map[0 := slow, 1 := q1]));
    steps := FinishReads(INIT, steps, 1, []);
  }
}
