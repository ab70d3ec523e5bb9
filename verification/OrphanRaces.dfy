/** Runs that orphan a master: three races between probe and write, a failed stop, a lost registration. */
module OrphanRaces {
  import opened Outcomes
  import opened Destination
  import opened Connections
  import opened Daemon
  import opened Interleaving
  import opened InterleavingTheorems
  import opened InterleavingRuns
  import opened Orphans

  /** A session of its own opens an untracked target. */
  lemma Opens(cfg: Config, k: nat, s: System, i: nat, target: HostTarget) returns (s': System)
    requires Reachable(cfg, k, s) && i < |s.sessions| && s.sessions[i] == CheckingRoom(target)
    requires target.Key() !in s.conns && |s.conns| < Capacity(cfg)
    ensures Reachable(cfg, k, s')
    ensures var socket := cfg.pathOf(target.Key());
            s' == s.(conns := s.conns[target.Key() := NewConnection(target, socket, None, Some(0), 0)],
                     sessions := s.sessions[i := Idle], live := s.live + {socket})
  {
    hide HostTarget.Key, HostTarget.Display, Reachable;
    var s1 := GoAt(cfg, k, s, i, CheckRoom);
    if |s.conns| >= cfg.maxConnections {
      assert s.conns == map[];
      s1 := GoAt(cfg, k, s1, i, ChooseVictim(None));
    }
    var s2 := GoAt(cfg, k, s1, i, StartAnswers(Started(0)));
    var s3 := GoAt(cfg, k, s2, i, InsertEntry(0));
    s' := GoAt(cfg, k, s3, i, Leave);
  }

  /** The only entry is the one of `target`, entered fresh by a session. */
  ghost predicate OnlyEntry(cfg: Config, m: Table, target: HostTarget) {
    m == map[target.Key() := NewConnection(target, cfg.pathOf(target.Key()), None, Some(0), 0)]
  }

  /** One session tracks one master, and all sessions rest. */
  lemma TrackOne(cfg: Config, k: nat, target: HostTarget) returns (s: System)
    requires k > 0
    ensures Reachable(cfg, k, s) && OnlyEntry(cfg, s.conns, target)
    ensures s == System(s.conns, AllIdle(k), Resting, multiset{}, {cfg.pathOf(target.Key())}, 0)
  {
    hide HostTarget.Key, HostTarget.Display, Reachable;
    InitialReachable(cfg, k);
    var s1 := GoAt(cfg, k, Initial(k), 0, Begin(target));
    var s2 := GoAt(cfg, k, s1, 0, LookUp);
    s := Opens(cfg, k, s2, 0, target);
    assert s.sessions == AllIdle(k);
  }

  /** The master dies, and a session asking for it finds it dead. */
  lemma FindsDead(cfg: Config, k: nat, s: System, i: nat, target: HostTarget) returns (s': System)
    requires Reachable(cfg, k, s) && i < |s.sessions| && s.sessions[i] == Idle
    requires OnlyEntry(cfg, s.conns, target) && cfg.pathOf(target.Key()) !in s.live
    ensures Reachable(cfg, k, s') && s' == s.(sessions := s.sessions[i := DroppingStale(target)])
  {
    hide HostTarget.Key, HostTarget.Display, Reachable;
    var s1 := GoAt(cfg, k, s, i, Begin(target));
    var s2 := GoAt(cfg, k, s1, i, LookUp);
    s' := Go(cfg, k, s2, SessionStep(i, ProbeAnswers(false, 0)));
  }

  /** It drops the entry and opens the target anew. */
  lemma Reopens(cfg: Config, k: nat, s: System, i: nat, target: HostTarget) returns (s': System)
    requires Reachable(cfg, k, s) && i < |s.sessions| && s.sessions[i] == DroppingStale(target)
    requires OnlyEntry(cfg, s.conns, target) && s.live == {}
    ensures Reachable(cfg, k, s')
    ensures s' == s.(sessions := s.sessions[i := Idle], live := {cfg.pathOf(target.Key())})
  {
    hide HostTarget.Key, HostTarget.Display, Reachable;
    var s1 := GoAt(cfg, k, s, i, DropStale);
    assert s1.conns == map[];
    s' := Opens(cfg, k, s1, i, target);
    assert s'.conns == s.conns;
    assert s'.sessions == s.sessions[i := Idle];
  }

  /** The health task looks at the only entry. */
  lemma Looks(cfg: Config, k: nat, s: System, target: HostTarget) returns (s': System)
    requires Reachable(cfg, k, s) && s.health == Resting && OnlyEntry(cfg, s.conns, target)
    ensures Reachable(cfg, k, s')
    ensures s' == s.(health := CheckingEntry(target.Key(), s.conns[target.Key()], []))
  {
    hide HostTarget.Key, HostTarget.Display, Reachable;
    var key := target.Key();
    var s1 := Go(cfg, k, s, HealthStep(Tick([key])));
    assert s1 == s.(health := Scanning([key]));
    assert [key][1..] == [];
    s' := Go(cfg, k, s1, HealthStep(LookAtNext));
  }

  /** A faithful run reaches a state without orphans from which this step orphans a master. */
  ghost predicate Race(cfg: Config, k: nat, s: System, step: Step) {
    && Reachable(cfg, k, s) && SystemCanonical(cfg, s) && NoOrphans(cfg, s)
    && !SafeStep(cfg, s, step)
    && !NoOrphans(cfg, Next(cfg, s, step))
  }

  /** A close request stops the master the health task is looking at; the task restarts it. */
  lemma RestartRace(cfg: Config, target: HostTarget) returns (s: System, step: Step)
    requires cfg.reconnect
    ensures Race(cfg, 1, s, step) && FaithfulStep(s, step) && step == HealthStep(RestartAnswers(Started(0)))
    ensures var key := target.Key();
            var c := NewConnection(target, cfg.pathOf(key), None, Some(0), 0);
            s == System(map[], [Idle], Restarting(key, c, []), multiset{}, {}, 0)
  {
    hide HostTarget.Key, HostTarget.Display, Reachable;
    var key := target.Key();
    var socket := cfg.pathOf(key);
    var s0 := TrackOne(cfg, 1, target);
    var s1 := Looks(cfg, 1, s0, target);
    var s2 := Go(cfg, 1, s1, CloseRemoves(key));
    assert s2 == s1.(conns := map[], closing := multiset{socket});
    var s3 := Go(cfg, 1, s2, CloseStops(socket, true));
    assert s3 == s1.(conns := map[], live := {});
    s := Go(cfg, 1, s3, HealthStep(EntryAnswers(false)));
    step := HealthStep(RestartAnswers(Started(0)));
    assert s.sessions == AllIdle(1) == [Idle];
    StepOrphansIff(cfg, s, step);
  }

  /**
   The health task finds the master dead and cannot restart it; before it drops the
   entry, a session has dropped it, started a new master and entered that.
   */
  lemma HealthDropRace(cfg: Config, target: HostTarget) returns (s: System, step: Step)
    ensures Race(cfg, 1, s, step) && FaithfulStep(s, step) && step == HealthStep(DropEntry)
    ensures OnlyEntry(cfg, s.conns, target)
    ensures s == System(s.conns, [Idle], Dropping(target.Key(), []), multiset{}, {cfg.pathOf(target.Key())}, 0)
  {
    hide HostTarget.Key, HostTarget.Display, Reachable;
    var socket := cfg.pathOf(target.Key());
    var s0 := TrackOne(cfg, 1, target);
    var s1 := Looks(cfg, 1, s0, target);
    var s2 := Go(cfg, 1, s1, MasterDies(socket));
    assert s2 == s1.(live := {});
    var s3 := Go(cfg, 1, s2, HealthStep(EntryAnswers(false)));
    if cfg.reconnect {
      s3 := Go(cfg, 1, s3, HealthStep(RestartAnswers(StartFailed(""))));
    }
    assert s3 == s2.(health := Dropping(target.Key(), []));
    var s4 := FindsDead(cfg, 1, s3, 0, target);
    s := Reopens(cfg, 1, s4, 0, target);
    step := HealthStep(DropEntry);
    assert s.sessions == AllIdle(1) == [Idle];
    LosesOnlyEntry(cfg, s, target, step);
  }

  /** Two sessions find the same master dead; the second drops the entry the first has made anew. */
  lemma StaleDropRace(cfg: Config, target: HostTarget) returns (s: System, step: Step)
    ensures Race(cfg, 2, s, step) && FaithfulStep(s, step) && step == SessionStep(1, DropStale)
    ensures OnlyEntry(cfg, s.conns, target)
    ensures s == System(s.conns, [Idle, DroppingStale(target)], Resting, multiset{}, {cfg.pathOf(target.Key())}, 0)
  {
    hide HostTarget.Key, HostTarget.Display, Reachable;
    var s0 := TrackOne(cfg, 2, target);
    var s1 := Go(cfg, 2, s0, MasterDies(cfg.pathOf(target.Key())));
    assert s1 == s0.(live := {});
    var s2 := FindsDead(cfg, 2, s1, 0, target);
    var s3 := FindsDead(cfg, 2, s2, 1, target);
    s := Reopens(cfg, 2, s3, 0, target);
    step := SessionStep(1, DropStale);
    assert s.sessions == [Idle, DroppingStale(target)];
    LosesOnlyEntry(cfg, s, target, step);
  }

  /** A close request removes the entry and fails to stop the master. */
  lemma FailedStop(cfg: Config, target: HostTarget) returns (s: System, step: Step)
    ensures Race(cfg, 1, s, step) && step == CloseStops(cfg.pathOf(target.Key()), false)
    ensures var socket := cfg.pathOf(target.Key());
            s == System(map[], [Idle], Resting, multiset{socket}, {socket}, 0)
  {
    hide HostTarget.Key, HostTarget.Display, Reachable;
    var key := target.Key();
    var socket := cfg.pathOf(key);
    var s0 := TrackOne(cfg, 1, target);
    s := Go(cfg, 1, s0, CloseRemoves(key));
    assert s == s0.(conns := map[], closing := multiset{socket});
    assert s.sessions == AllIdle(1) == [Idle];
    step := CloseStops(socket, false);
    assert s.closing - multiset{socket} == multiset{};
    assert Owned(cfg, s, socket);
    StepOrphansIff(cfg, s, step);
  }

  /** A session without an entry has started a master interactively and not yet registered it. */
  lemma StartedByUser(cfg: Config, target: HostTarget) returns (s: System)
    ensures Reachable(cfg, 1, s)
    ensures var socket := cfg.pathOf(target.Key());
            s == System(map[], [Registering(target, socket)], Resting, multiset{}, {socket}, 0)
  {
    hide HostTarget.Key, HostTarget.Display, Reachable;
    InitialReachable(cfg, 1);
    var s1 := Passes(cfg, 1, Initial(1), 0, target);
    var s2 := GoAt(cfg, 1, s1, 0, StartAnswers(NeedsInteractiveAuth));
    s := GoAt(cfg, 1, s2, 0, UserStarts(true));
    assert s.sessions == [Registering(target, cfg.pathOf(target.Key()))];
  }

  /** The user has started the master, and the daemon never hears of it. */
  lemma LostRegistration(cfg: Config, target: HostTarget) returns (s: System, step: Step)
    ensures Race(cfg, 1, s, step) && step == SessionStep(0, LoseRegistration)
    ensures var socket := cfg.pathOf(target.Key());
            s == System(map[], [Registering(target, socket)], Resting, multiset{}, {socket}, 0)
  {
    hide HostTarget.Key, HostTarget.Display, Reachable, ActOn;
    s := StartedByUser(cfg, target);
    step := SessionStep(0, LoseRegistration);
    assert HeldBy(cfg, s.sessions[0]) == Some(cfg.pathOf(target.Key()));
    assert s.sessions[0 := Idle] == [Idle];
    StepOrphansIff(cfg, s, step);
  }

  lemma LosesOnlyEntry(cfg: Config, s: System, target: HostTarget, step: Step)
    requires OnlyEntry(cfg, s.conns, target) && s.live == {cfg.pathOf(target.Key())} && s.closing == multiset{}
    requires forall i | 0 <= i < |s.sessions| :: s.sessions[i] == Idle || s.sessions[i] == DroppingStale(target)
    requires || (step == HealthStep(DropEntry) && s.health == Dropping(target.Key(), []))
             || (step == SessionStep(1, DropStale) && |s.sessions| == 2 && s.sessions[1] == DroppingStale(target))
    ensures SystemCanonical(cfg, s) && NoOrphans(cfg, s) && !SafeStep(cfg, s, step)
    ensures !NoOrphans(cfg, Next(cfg, s, step))
  {
    hide HostTarget.Key, HostTarget.Display;
    var key := target.Key();
    assert key in s.conns;
    assert (s.conns - {key}) == map[];
    StepOrphansIff(cfg, s, step);
  }

  /**
   Whole operations never orphan a master; interleaved steps can. After the restart race
   a live master remains that no entry, session, pending close or health check knows of.
   */
  lemma OrphanReachable(cfg: Config, target: HostTarget) returns (s: System)
    requires cfg.reconnect
    ensures Reachable(cfg, 1, s)
    ensures s == System(map[], [Idle], Resting, multiset{}, {cfg.pathOf(target.Key())}, 0)
  {
    hide HostTarget.Key, HostTarget.Display, Reachable;
    var before, restart := RestartRace(cfg, target);
    var s1 := Go(cfg, 1, before, restart);
    var s2 := Go(cfg, 1, s1, HealthStep(MarkRestarted));
    var s3 := Go(cfg, 1, s2, HealthStep(TouchEntry(0)));
    s := Go(cfg, 1, s3, HealthStep(LookAtNext));
  }
}
