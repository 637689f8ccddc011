/** The hot-reload protocol: any number of admin handlers and gateway reloads,
    interleaved one SQL statement (or one in-memory action) at a time. */
module ConfigProtocol {
  import opened Strings
  import opened Models
  import opened ConfigTables

  /** Where an admin handler stands: its write is entry `m` of the log. */
  datatype Admin =
    | Wrote(m: nat)
    | ReadLatest(m: nat, seen: nat)

  /** A statement's answer and the length of the write log when it ran. */
  datatype Answer<T> = Answer(value: T, at: nat)

  /** A reload in flight on gateway `g`; timers may start several at once. */
  datatype Reload =
    | Polled(g: nat, latest: nat)
    | Loading(g: nat, trigger: nat,
              routes: Option<Answer<seq<Route>>>,
              policies: Option<Answer<seq<Policy>>>,
              version: Option<Answer<nat>>)

  /** An in-memory snapshot, with the log lengths its three reads saw. */
  datatype Cached = Cached(routes: seq<Route>, policies: map<string, Policy>, version: nat,
                           routesAt: nat, policiesAt: nat, versionAt: nat)

  const INITIAL_CACHE := Cached([], map[], 0, 0, 0, 0)

  datatype State = State(
    log: seq<Write>,               // accepted writes; the tables are Replay(log)
    versions: seq<nat>,            // config_versions rows, duplicates allowed
    bumped: map<nat, nat>,         // mutation -> version its bump inserted
    admins: map<nat, Admin>,
    reloads: map<nat, Reload>,
    caches: map<nat, Cached>)

  const INIT := State([], [], map[], map[], map[], map[])

  /** `ORDER BY version DESC LIMIT 1`, 0 for an empty table. */
  function MaxVersion(versions: seq<nat>): nat {
    if versions == [] then 0
    else
      var rest := MaxVersion(versions[..|versions| - 1]);
      if versions[|versions| - 1] > rest then versions[|versions| - 1] else rest
  }

  function CacheOf(s: State, g: nat): Cached {
    if g in s.caches then s.caches[g] else INITIAL_CACHE
  }

  datatype Step =
    | WriteRow(a: nat, w: Write)            // the handler's INSERT/UPDATE/DELETE
    | ReadMax(a: nat)                       // bump: getLatest
    | InsertVersion(a: nat)                 // bump: INSERT latest + 1
    | AdminFails(a: nat)                    // a bump statement throws
    | Poll(t: nat, g: nat)                  // checkAndReload: getLatest
    | Compare(t: nat)                       // latestVersion > cache.version
    | StartLoad(t: nat, g: nat)             // the load at startup
    | FetchRoutes(t: nat, rows: seq<Route>)
    | FetchPolicies(t: nat, prows: seq<Policy>)
    | FetchVersion(t: nat)
    | Install(t: nat)
    | ReloadFails(t: nat)                   // a read rejects, nothing is installed

  ghost predicate Enabled(s: State, st: Step) {
    match st
    case WriteRow(a, w) => a !in s.admins && Accepted(Replay(s.log), w)
    case ReadMax(a) => a in s.admins && s.admins[a].Wrote?
    case InsertVersion(a) => a in s.admins && s.admins[a].ReadLatest?
    case AdminFails(a) => a in s.admins
    case Poll(t, g) => t !in s.reloads
    case Compare(t) => t in s.reloads && s.reloads[t].Polled?
    case StartLoad(t, g) => t !in s.reloads
    case FetchRoutes(t, rows) =>
      && t in s.reloads && s.reloads[t].Loading? && s.reloads[t].routes.None?
      && EnabledListing(rows, Replay(s.log).routes)
    case FetchPolicies(t, prows) =>
      && t in s.reloads && s.reloads[t].Loading? && s.reloads[t].policies.None?
      && PolicyListing(prows, Replay(s.log).policies)
    case FetchVersion(t) => t in s.reloads && s.reloads[t].Loading? && s.reloads[t].version.None?
    case Install(t) => t in s.reloads && Complete(s.reloads[t])
    case ReloadFails(t) => t in s.reloads
  }

  predicate Complete(r: Reload) {
    r.Loading? && r.routes.Some? && r.policies.Some? && r.version.Some?
  }

  function Snapshot(r: Reload): Cached
    requires Complete(r)
  {
    Cached(r.routes.value.value, PolicyMap(r.policies.value.value), r.version.value.value,
           r.routes.value.at, r.policies.value.at, r.version.value.at)
  }

  ghost function Do(s: State, st: Step): State
    requires Enabled(s, st)
  {
    match st
    case WriteRow(a, w) => s.(log := s.log + [w], admins := s.admins[a := Wrote(|s.log|)])
    case ReadMax(a) => s.(admins := s.admins[a := ReadLatest(s.admins[a].m, MaxVersion(s.versions))])
    case InsertVersion(a) =>
      var v := s.admins[a].seen + 1;
      s.(versions := s.versions + [v], bumped := s.bumped[s.admins[a].m := v], admins := s.admins - {a})
    case AdminFails(a) => s.(admins := s.admins - {a})
    case Poll(t, g) => s.(reloads := s.reloads[t := Polled(g, MaxVersion(s.versions))])
    case Compare(t) =>
      var r := s.reloads[t];
      if r.latest > CacheOf(s, r.g).version
      then s.(reloads := s.reloads[t := Loading(r.g, r.latest, None, None, None)])
      else s.(reloads := s.reloads - {t})
    case StartLoad(t, g) => s.(reloads := s.reloads[t := Loading(g, 0, None, None, None)])
    case FetchRoutes(t, rows) =>
      s.(reloads := s.reloads[t := s.reloads[t].(routes := Some(Answer(rows, |s.log|)))])
    case FetchPolicies(t, prows) =>
      s.(reloads := s.reloads[t := s.reloads[t].(policies := Some(Answer(prows, |s.log|)))])
    case FetchVersion(t) =>
      s.(reloads := s.reloads[t := s.reloads[t].(version := Some(Answer(MaxVersion(s.versions), |s.log|)))])
    case Install(t) =>
      s.(caches := s.caches[s.reloads[t].g := Snapshot(s.reloads[t])], reloads := s.reloads - {t})
    case ReloadFails(t) => s.(reloads := s.reloads - {t})
  }

  /** An interleaving from any state; each step must be enabled when it runs. */
  ghost predicate RunsFrom(s: State, steps: seq<Step>)
    decreases |steps|, 0
  {
    steps == [] ||
    (RunsFrom(s, steps[..|steps| - 1]) && Enabled(After(s, steps[..|steps| - 1]), steps[|steps| - 1]))
  }

  ghost function After(s: State, steps: seq<Step>): State
    requires RunsFrom(s, steps)
    decreases |steps|, 1
  {
    if steps == [] then s else Do(After(s, steps[..|steps| - 1]), steps[|steps| - 1])
  }

  lemma Extend(s: State, steps: seq<Step>, st: Step)
    requires RunsFrom(s, steps) && Enabled(After(s, steps), st)
    ensures RunsFrom(s, steps + [st])
    ensures After(s, steps + [st]) == Do(After(s, steps), st)
  {
    assert (steps + [st])[..|steps + [st]| - 1] == steps;
  }

  lemma {:induction false} PrefixRuns(s: State, steps: seq<Step>, i: nat)
    requires RunsFrom(s, steps) && i <= |steps|
    ensures RunsFrom(s, steps[..i])
  {
    if i < |steps| {
      PrefixRuns(s, steps[..|steps| - 1], i);
      assert steps[..|steps| - 1][..i] == steps[..i];
    } else {
      assert steps[..i] == steps;
    }
  }

  /** The state after the first `i` steps of a run from the empty database. */
  ghost function At(steps: seq<Step>, i: nat): State
    requires RunsFrom(INIT, steps) && i <= |steps|
  {
    PrefixRuns(INIT, steps, i);
    After(INIT, steps[..i])
  }

  lemma AtStep(steps: seq<Step>, i: nat)
    requires RunsFrom(INIT, steps) && i < |steps|
    ensures Enabled(At(steps, i), steps[i])
    ensures At(steps, i + 1) == Do(At(steps, i), steps[i])
  {
    PrefixRuns(INIT, steps, i);
    PrefixRuns(INIT, steps, i + 1);
    assert steps[..i + 1][..i] == steps[..i];
  }

  /** A run made one step longer, with the state it then reaches. */
  lemma Then(s0: State, steps: seq<Step>, st: Step, s: State) returns (longer: seq<Step>)
    requires RunsFrom(s0, steps) && Enabled(After(s0, steps), st)
    requires s == Do(After(s0, steps), st)
    ensures longer == steps + [st] && RunsFrom(s0, longer) && After(s0, longer) == s
  {
    Extend(s0, steps, st);
    longer := steps + [st];
  }

  /** A poll that finds a newer version and begins to load. */
  lemma BeginReload(s0: State, steps: seq<Step>, t: nat, g: nat) returns (longer: seq<Step>)
    requires RunsFrom(s0, steps)
    requires var s := After(s0, steps);
             t !in s.reloads && MaxVersion(s.versions) > CacheOf(s, g).version
    ensures RunsFrom(s0, longer)
    ensures var s := After(s0, steps);
            After(s0, longer)
              == s.(reloads := s.reloads[t := Loading(g, MaxVersion(s.versions), None, None, None)])
  {
    var s := After(s0, steps);
    var polled := s.(reloads := s.reloads[t := Polled(g, MaxVersion(s.versions))]);
    longer := Then(s0, steps, Poll(t, g), polled);
    var loading := Loading(g, MaxVersion(s.versions), None, None, None);
    assert polled.reloads[t := loading] == s.reloads[t := loading];
    longer := Then(s0, longer, Compare(t), s.(reloads := s.reloads[t := loading]));
  }

  /** The reads a load has left, policies then version. */
  lemma FinishReads(s0: State, steps: seq<Step>, t: nat, prows: seq<Policy>) returns (longer: seq<Step>)
    requires RunsFrom(s0, steps)
    requires var s := After(s0, steps);
      && t in s.reloads && s.reloads[t].Loading?
      && s.reloads[t].policies.None? && s.reloads[t].version.None?
      && PolicyListing(prows, Replay(s.log).policies)
    ensures RunsFrom(s0, longer)
    ensures var s := After(s0, steps);
            After(s0, longer) == s.(reloads := s.reloads[t := s.reloads[t].(
              policies := Some(Answer(prows, |s.log|)),
              version := Some(Answer(MaxVersion(s.versions), |s.log|)))])
  {
    var s := After(s0, steps);
    var r1 := s.reloads[t].(policies := Some(Answer(prows, |s.log|)));
    var r2 := r1.(version := Some(Answer(MaxVersion(s.versions), |s.log|)));
    longer := Then(s0, steps, FetchPolicies(t, prows), s.(reloads := s.reloads[t := r1]));
    assert s.reloads[t := r1][t := r2] == s.reloads[t := r2];
    longer := Then(s0, longer, FetchVersion(t), s.(reloads := s.reloads[t := r2]));
  }
}
