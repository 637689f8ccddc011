/** What every reachable state of the reload protocol satisfies. */
module ConfigInvariants {
  import opened Models
  import opened ConfigTables
  import opened ConfigProtocol

  lemma MaxAppend(versions: seq<nat>, v: nat)
    ensures MaxVersion(versions + [v]) >= v
    ensures MaxVersion(versions + [v]) >= MaxVersion(versions)
    ensures MaxVersion(versions + [v]) == v || MaxVersion(versions + [v]) == MaxVersion(versions)
  {
    assert (versions + [v])[..|versions + [v]| - 1] == versions;
  }

  /** The stored maximum is the greatest row, and 0 stands for no rows. */
  lemma {:induction false} MaxVersionIsMaximum(versions: seq<nat>, v: nat)
    ensures versions != [] ==>
              (v == MaxVersion(versions) <==> v in versions && forall w :: w in versions ==> w <= v)
    ensures versions == [] ==> MaxVersion(versions) == 0
  {
    if versions != [] {
      var init, last := versions[..|versions| - 1], versions[|versions| - 1];
      assert versions == init + [last];
      MaxVersionIsMaximum(init, MaxVersion(init));
      assert MaxVersion(versions) in versions && forall w :: w in versions ==> w <= MaxVersion(versions);
    }
  }

  lemma ReplayAppend(log: seq<Write>, w: Write)
    ensures Replay(log + [w]) == Effect(Replay(log), w)
  {
    assert (log + [w])[..|log + [w]| - 1] == log;
  }

  ghost predicate LogInv(log: seq<Write>) {
    forall n :: 0 <= n <= |log| ==> Consistent(Replay(log[..n]))
  }

  ghost predicate AdminsInv(s: State) {
    && (forall m :: m in s.bumped ==> m < |s.log| && 1 <= s.bumped[m] <= MaxVersion(s.versions))
    && (forall a :: a in s.admins ==>
          s.admins[a].m < |s.log| && (s.admins[a].ReadLatest? ==> s.admins[a].seen <= MaxVersion(s.versions)))
  }

  ghost predicate RoutesSeen(s: State, rows: seq<Route>, at: nat) {
    at <= |s.log| && EnabledListing(rows, Replay(s.log[..at]).routes)
  }

  /** A reload in flight has seen no version above the stored maximum, and each
      answer is that of the database at the time of its read. */
  ghost predicate ReloadInv(s: State, r: Reload) {
    match r
    case Polled(_, latest) => latest <= MaxVersion(s.versions)
    case Loading(_, trigger, routes, policies, version) =>
      && trigger <= MaxVersion(s.versions)
      && (routes.Some? ==> RoutesSeen(s, routes.value.value, routes.value.at))
      && (policies.Some? ==>
            policies.value.at <= |s.log|
            && PolicyListing(policies.value.value, Replay(s.log[..policies.value.at]).policies))
      && (version.Some? ==>
            trigger <= version.value.value <= MaxVersion(s.versions) && version.value.at <= |s.log|)
  }

  ghost predicate CacheInv(s: State, c: Cached) {
    && c.version <= MaxVersion(s.versions)
    && RoutesSeen(s, c.routes, c.routesAt)
    && c.policiesAt <= |s.log| && c.policies == Replay(s.log[..c.policiesAt]).policies
    && c.versionAt <= |s.log|
  }

  ghost predicate Inv(s: State) {
    && LogInv(s.log)
    && AdminsInv(s)
    && (forall t :: t in s.reloads ==> ReloadInv(s, s.reloads[t]))
    && (forall g :: CacheInv(s, CacheOf(s, g)))
  }

  lemma StepGrows(s: State, st: Step)
    requires Enabled(s, st)
    ensures s.log <= Do(s, st).log
    ensures MaxVersion(s.versions) <= MaxVersion(Do(s, st).versions)
  {
    if st.InsertVersion? {
      MaxAppend(s.versions, s.admins[st.a].seen + 1);
    }
  }

  lemma LogInvStep(s: State, st: Step)
    requires LogInv(s.log) && Enabled(s, st)
    ensures LogInv(Do(s, st).log)
  {
    if st.WriteRow? {
      ReplayAppend(s.log, st.w);
      assert s.log[..|s.log|] == s.log;
      EffectKeepsConsistent(Replay(s.log), st.w);
      var log' := s.log + [st.w];
      forall n | 0 <= n <= |log'|
        ensures Consistent(Replay(log'[..n]))
      {
        if n <= |s.log| {
          assert log'[..n] == s.log[..n];
        } else {
          assert log'[..n] == log';
        }
      }
    }
  }

  lemma AdminsInvStep(s: State, st: Step)
    requires AdminsInv(s) && Enabled(s, st)
    ensures AdminsInv(Do(s, st))
  {
    hide Replay, Effect, Accepted, EnabledListing, PolicyListing, MaxVersion, Consistent;
    if st.InsertVersion? {
      MaxAppend(s.versions, s.admins[st.a].seen + 1);
    }
  }

  /** Answers stay true of their own time while the log and the maximum grow. */
  lemma InvCarries(s: State, s': State)
    requires Inv(s) && s.log <= s'.log && MaxVersion(s.versions) <= MaxVersion(s'.versions)
    ensures forall t :: t in s.reloads ==> ReloadInv(s', s.reloads[t])
    ensures forall g :: CacheInv(s', CacheOf(s, g))
  {
    assert forall n :: 0 <= n <= |s.log| ==> s.log[..n] == s'.log[..n];
  }

  lemma InstalledInv(s: State, t: nat)
    requires Inv(s) && t in s.reloads && Complete(s.reloads[t])
    ensures CacheInv(s, Snapshot(s.reloads[t]))
  {
    var r := s.reloads[t];
    assert ReloadInv(s, r);
    PolicyMapIsTable(r.policies.value.value, Replay(s.log[..r.policies.value.at]));
  }

  lemma InvStep(s: State, st: Step)
    requires Inv(s) && Enabled(s, st)
    ensures Inv(Do(s, st))
  {
    hide Effect, Accepted, Replay, MaxVersion, EnabledListing, PolicyListing, Consistent, PolicyMap;
    var s' := Do(s, st);
    StepGrows(s, st);
    LogInvStep(s, st);
    AdminsInvStep(s, st);
    InvCarries(s, s');
    assert s.log[..|s.log|] == s.log;
    if st.Install? {
      InstalledInv(s, st.t);
      InvCarries(s, s');
    }
    forall t | t in s'.reloads
      ensures ReloadInv(s', s'.reloads[t])
    {
      if t in s.reloads && s'.reloads[t] == s.reloads[t] {
      } else {
        ReloadStep(s, st, t);
      }
    }
    forall g
      ensures CacheInv(s', CacheOf(s', g))
    {
      if st.Install? && g == s.reloads[st.t].g {
        assert CacheOf(s', g) == Snapshot(s.reloads[st.t]);
      } else {
        assert CacheOf(s', g) == CacheOf(s, g);
      }
    }
  }

  lemma ReloadStep(s: State, st: Step, t: nat)
    requires Inv(s) && Enabled(s, st)
    requires t in Do(s, st).reloads && (t in s.reloads ==> s.reloads[t] != Do(s, st).reloads[t])
    ensures ReloadInv(Do(s, st), Do(s, st).reloads[t])
  {
    hide Effect, Accepted, Replay, EnabledListing, PolicyListing, Consistent;
    assert s.log[..|s.log|] == s.log;
    if t in s.reloads {
      assert ReloadInv(s, s.reloads[t]);
    }
  }

  lemma InvInit()
    ensures Inv(INIT)
  {
    assert Consistent(EMPTY);
    forall g
      ensures CacheInv(INIT, CacheOf(INIT, g))
    {
      assert CacheOf(INIT, g) == INITIAL_CACHE;
      assert EnabledListing([], Replay([]).routes);
    }
  }

  /** The invariant holds in every state of every interleaving. */
  lemma {:induction false} InvHolds(steps: seq<Step>, i: nat)
    requires RunsFrom(INIT, steps) && i <= |steps|
    ensures Inv(At(steps, i))
  {
    if i == 0 {
      InvInit();
      assert steps[..0] == [];
    } else {
      InvHolds(steps, i - 1);
      AtStep(steps, i - 1);
      InvStep(At(steps, i - 1), steps[i - 1]);
    }
  }

  /** The log and the stored maximum only grow. */
  lemma {:induction false} Grows(steps: seq<Step>, i: nat, j: nat)
    requires RunsFrom(INIT, steps) && i <= j <= |steps|
    ensures At(steps, i).log <= At(steps, j).log
    ensures MaxVersion(At(steps, i).versions) <= MaxVersion(At(steps, j).versions)
  {
    if i < j {
      Grows(steps, i, j - 1);
      AtStep(steps, j - 1);
      StepGrows(At(steps, j - 1), steps[j - 1]);
    }
  }
}
