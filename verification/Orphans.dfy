/**
 When interleaved steps orphan a live master: exactly when its last owner gives it up
 alive, after a probe that is wrong or out of date, a failed stop or a lost registration,
 or when it is restarted without an owner.
 */
module Orphans {
  import opened Outcomes
  import opened Orders
  import opened Destination
  import opened Connections
  import opened Daemon
  import opened Interleaving
  import opened InterleavingTheorems

  /** The socket of a master the session is about to enter, to register or to stop. */
  function HeldBy(cfg: Config, s: Session): Option<Path> {
    match s
    case Inserting(target, _) => Some(cfg.pathOf(target.Key()))
    case Registering(_, socket) => Some(socket)
    case StoppingVictim(_, stopping) => Some(stopping)
    case _ => None
  }

  ghost predicate Tracked(m: Table, socket: Path) {
    exists k :: k in m && m[k].controlSocket == socket
  }

  ghost predicate Held(cfg: Config, sessions: seq<Session>, socket: Path) {
    exists i :: 0 <= i < |sessions| && HeldBy(cfg, sessions[i]) == Some(socket)
  }

  /** Someone will still reuse, enter or stop the master on this socket. */
  ghost predicate Owned(cfg: Config, s: System, socket: Path) {
    Tracked(s.conns, socket) || Held(cfg, s.sessions, socket) || socket in s.closing
  }

  ghost predicate NoOrphans(cfg: Config, s: System) {
    forall socket | socket in s.live :: Owned(cfg, s, socket)
  }

  /** The entry's master is dead, or somebody else owns its socket. */
  ghost predicate SafeRemoval(cfg: Config, s: System, key: string) {
    key in s.conns && s.conns[key].controlSocket in s.live ==>
      Owned(cfg, s.(conns := s.conns - {key}), s.conns[key].controlSocket)
  }

  /** What the session gives up by going on as `next` is dead, or somebody else owns it. */
  ghost predicate SafeRelease(cfg: Config, s: System, who: nat, next: Session, socket: Path)
    requires who < |s.sessions|
  {
    socket in s.live ==> Owned(cfg, s.(sessions := s.sessions[who := next]), socket)
  }

  ghost predicate SafeAct(cfg: Config, s: System, who: nat, act: Act)
    requires who < |s.sessions|
  {
    match s.sessions[who]
    case DroppingStale(target) => act.DropStale? ==> SafeRemoval(cfg, s, target.Key())
    case StoppingVictim(target, socket) =>
      act.StopVictim? && !act.stopped ==> SafeRelease(cfg, s, who, Starting(target), socket)
    case Registering(_, socket) => act.LoseRegistration? ==> SafeRelease(cfg, s, who, Idle, socket)
    case _ => true
  }

  /**
   Unsafe, while the master is live and nobody else owns its socket: dropping its entry
   as dead, failing to stop it after an eviction or a close, and losing its registration.
   Unsafe too is restarting a master whose socket nobody owns any more. Each clause reads
   the state before the step only.
   */
  ghost predicate SafeStep(cfg: Config, s: System, step: Step) {
    match step
    case SessionStep(who, act) => who < |s.sessions| ==> SafeAct(cfg, s, who, act)
    case HealthStep(act) =>
      && (s.health.Dropping? && act.DropEntry? ==> SafeRemoval(cfg, s, s.health.key))
      && (s.health.Restarting? && act.RestartAnswers? && act.result.Started? ==>
            Owned(cfg, s, s.health.conn.controlSocket))
    case CloseStops(socket, stopped) =>
      !stopped && socket in s.closing && socket in s.live ==>
        Owned(cfg, s.(closing := s.closing - multiset{socket}), socket)
    case _ => true
  }

  // ---------------------------------------------------------------- one step

  /** Owners other than the entry of `key` do not change with it. */
  lemma RemovalOwned(cfg: Config, s: System, key: string, socket: Path)
    requires key in s.conns ==> s.conns[key].controlSocket != socket
    ensures Owned(cfg, s.(conns := s.conns - {key}), socket) <==> Owned(cfg, s, socket)
  {
    if k :| k in s.conns && s.conns[k].controlSocket == socket {
      assert k in s.conns - {key};
    }
  }

  lemma RemovalIff(cfg: Config, s: System, key: string)
    requires NoOrphans(cfg, s)
    ensures NoOrphans(cfg, s.(conns := s.conns - {key})) <==> SafeRemoval(cfg, s, key)
  {
    hide Owned;
    var s' := s.(conns := s.conns - {key});
    if SafeRemoval(cfg, s, key) {
      forall socket | socket in s'.live
        ensures Owned(cfg, s', socket)
      {
        if !(key in s.conns && s.conns[key].controlSocket == socket) {
          RemovalOwned(cfg, s, key, socket);
        }
      }
    }
  }

  /** What a session's act leaves owned: nothing goes but what it held and the entry it removed. */
  ghost predicate ActKeepsOwners(cfg: Config, v: View, v': View, socket: Path) {
    && (Tracked(v.conns, socket) ==> Tracked(v'.conns, socket) || HeldBy(cfg, v'.session) == Some(socket))
    && (HeldBy(cfg, v.session) == Some(socket) && socket in v'.live ==>
          HeldBy(cfg, v'.session) == Some(socket) || Tracked(v'.conns, socket))
  }

  lemma HeldUpdated(cfg: Config, sessions: seq<Session>, who: nat, x: Session, socket: Path)
    requires who < |sessions|
    ensures HeldBy(cfg, x) == Some(socket) ==> Held(cfg, sessions[who := x], socket)
    ensures Held(cfg, sessions, socket) && HeldBy(cfg, sessions[who]) != Some(socket) ==>
      Held(cfg, sessions[who := x], socket)
  {
    hide HeldBy;
    if HeldBy(cfg, x) == Some(socket) {
      assert HeldBy(cfg, sessions[who := x][who]) == Some(socket);
    }
    if i :| 0 <= i < |sessions| && HeldBy(cfg, sessions[i]) == Some(socket) {
      if i != who {
        assert HeldBy(cfg, sessions[who := x][i]) == Some(socket);
      }
    }
  }

  /** The act gives a socket up without stopping or entering its master. */
  predicate Releases(s: Session, act: Act) {
    (s.StoppingVictim? && act.StopVictim? && !act.stopped) || (s.Registering? && act.LoseRegistration?)
  }

  lemma SameTableActs(cfg: Config, v: View, act: Act, socket: Path)
    requires !WritesTable(v.session) && !Releases(v.session, act)
    ensures ActKeepsOwners(cfg, v, ActOn(cfg, v, act), socket)
    ensures ActOn(cfg, v, act).conns == v.conns
  {
    hide HostTarget.Key, HostTarget.Display, IsLru, Tracked;
  }

  lemma ReuseTracks(m: Table, key: string, ms: nat, now: nat, socket: Path)
    requires Tracked(m, socket)
    ensures Tracked(WithReuse(m, key, ms, now), socket)
  {
    var k :| k in m && m[k].controlSocket == socket;
    assert k in WithReuse(m, key, ms, now);
  }

  lemma EntryTracks(m: Table, key: string, c: ManagedConnection, socket: Path)
    requires Tracked(m, socket)
    requires key in m ==> m[key].controlSocket == c.controlSocket
    ensures Tracked(m[key := c], socket)
  {
    var k :| k in m && m[k].controlSocket == socket;
    assert k in m[key := c];
  }

  lemma InsertedIsTracked(m: Table, key: string, c: ManagedConnection)
    ensures Tracked(m[key := c], c.controlSocket)
  {
    assert key in m[key := c];
  }

  lemma InsertingKeeps(cfg: Config, v: View, act: Act, socket: Path)
    requires (v.session.Inserting? || v.session.Registering?) && !Releases(v.session, act)
    requires TableCanonical(cfg, v.conns) && SessionCanonical(cfg, v.session)
    ensures ActKeepsOwners(cfg, v, ActOn(cfg, v, act), socket)
  {
    hide HostTarget.Key, HostTarget.Display, Tracked;
    var v' := ActOn(cfg, v, act);
    if v'.session != v.session {
      var key := v.session.target.Key();
      var c := v'.conns[key];
      assert v'.conns == v.conns[key := c] && c.controlSocket == cfg.pathOf(key);
      InsertedIsTracked(v.conns, key, c);
      if Tracked(v.conns, socket) {
        EntryTracks(v.conns, key, c, socket);
      }
    }
  }

  lemma EvictingKeeps(cfg: Config, v: View, act: Act, socket: Path)
    requires v.session.RemovingVictim?
    ensures ActKeepsOwners(cfg, v, ActOn(cfg, v, act), socket)
  {
    hide HostTarget.Key, HostTarget.Display;
    var victim := v.session.victim;
    if k :| k in v.conns && v.conns[k].controlSocket == socket {
      if k != victim {
        assert k in v.conns - {victim};
      }
    }
  }

  lemma MarkingKeeps(cfg: Config, v: View, act: Act, socket: Path)
    requires v.session.MarkingReused?
    ensures ActKeepsOwners(cfg, v, ActOn(cfg, v, act), socket)
  {
    hide HostTarget.Key, HostTarget.Display, WithReuse, Tracked;
    if act.MarkReused? && Tracked(v.conns, socket) {
      ReuseTracks(v.conns, v.session.target.Key(), v.session.probeMs, act.now, socket);
    }
  }

  /** Every act but a drop or a release keeps each live socket owned. */
  lemma ActOwners(cfg: Config, v: View, act: Act, socket: Path)
    requires !v.session.DroppingStale? && !Releases(v.session, act)
    requires TableCanonical(cfg, v.conns) && SessionCanonical(cfg, v.session)
    ensures ActKeepsOwners(cfg, v, ActOn(cfg, v, act), socket)
  {
    hide ActOn, ActKeepsOwners, TableCanonical, SessionCanonical;
    match v.session {
      case MarkingReused(_, _, _) => MarkingKeeps(cfg, v, act, socket);
      case RemovingVictim(_, _) => EvictingKeeps(cfg, v, act, socket);
      case Inserting(_, _) => InsertingKeeps(cfg, v, act, socket);
      case Registering(_, _) => InsertingKeeps(cfg, v, act, socket);
      case _ => SameTableActs(cfg, v, act, socket);
    }
  }

  /** A master comes to live only on the socket the session then holds. */
  lemma ActStarts(cfg: Config, v: View, act: Act, socket: Path)
    ensures var v' := ActOn(cfg, v, act);
            socket in v'.live ==> socket in v.live || HeldBy(cfg, v'.session) == Some(socket)
  {
    hide HostTarget.Key, HostTarget.Display, IsLru, WithReuse, NewConnection;
  }

  lemma SessionStepKeeps(cfg: Config, s: System, who: nat, act: Act)
    requires who < |s.sessions| && !s.sessions[who].DroppingStale? && !Releases(s.sessions[who], act)
    requires SystemCanonical(cfg, s) && NoOrphans(cfg, s)
    ensures NoOrphans(cfg, Next(cfg, s, SessionStep(who, act)))
  {
    hide ActOn, HeldBy, Tracked, Held, TableCanonical, SessionCanonical;
    var v := View(s.sessions[who], s.conns, s.live, s.missed);
    var v', s' := ActOn(cfg, v, act), Next(cfg, s, SessionStep(who, act));
    forall socket | socket in s'.live
      ensures Owned(cfg, s', socket)
    {
      ActStarts(cfg, v, act, socket);
      ActOwners(cfg, v, act, socket);
      HeldUpdated(cfg, s.sessions, who, v'.session, socket);
    }
  }

  lemma StaleDropIff(cfg: Config, s: System, who: nat, act: Act)
    requires who < |s.sessions| && s.sessions[who].DroppingStale? && NoOrphans(cfg, s)
    ensures NoOrphans(cfg, Next(cfg, s, SessionStep(who, act))) <==> SafeStep(cfg, s, SessionStep(who, act))
  {
    hide HostTarget.Key, HostTarget.Display, NoOrphans, SafeRemoval;
    var s' := Next(cfg, s, SessionStep(who, act));
    if act.DropStale? {
      var key := s.sessions[who].target.Key();
      RemovalIff(cfg, s, key);
      SameOwners(cfg, s.(conns := s.conns - {key}), s', who);
    } else {
      assert s' == s;
    }
  }

  /** Replacing a session that holds nothing by another changes no owner. */
  lemma SameOwners(cfg: Config, s: System, s': System, who: nat)
    requires who < |s.sessions| && HeldBy(cfg, s.sessions[who]).None? && |s'.sessions| == |s.sessions|
    requires HeldBy(cfg, s'.sessions[who]).None? && s'.sessions == s.sessions[who := s'.sessions[who]]
    requires s'.conns == s.conns && s'.live == s.live && s'.closing == s.closing
    ensures NoOrphans(cfg, s') <==> NoOrphans(cfg, s)
  {
    hide HeldBy, Tracked, Held;
    assert s.sessions == s'.sessions[who := s.sessions[who]];
    forall socket
      ensures Owned(cfg, s', socket) <==> Owned(cfg, s, socket)
    {
      HeldUpdated(cfg, s.sessions, who, s'.sessions[who], socket);
      HeldUpdated(cfg, s'.sessions, who, s.sessions[who], socket);
    }
  }

  /** Giving a held socket up orphans its master or nobody. */
  lemma ReleaseIff(cfg: Config, s: System, who: nat, next: Session, socket: Path)
    requires who < |s.sessions| && NoOrphans(cfg, s)
    requires HeldBy(cfg, s.sessions[who]) == Some(socket)
    ensures NoOrphans(cfg, s.(sessions := s.sessions[who := next])) <==> SafeRelease(cfg, s, who, next, socket)
  {
    hide HeldBy, Tracked, Held;
    var s' := s.(sessions := s.sessions[who := next]);
    forall other | other in s.live && other != socket
      ensures Owned(cfg, s', other)
    {
      HeldUpdated(cfg, s.sessions, who, next, other);
    }
  }

  lemma SessionReleaseIff(cfg: Config, s: System, who: nat, act: Act)
    requires who < |s.sessions| && Releases(s.sessions[who], act) && NoOrphans(cfg, s)
    ensures NoOrphans(cfg, Next(cfg, s, SessionStep(who, act))) <==> SafeStep(cfg, s, SessionStep(who, act))
  {
    hide NoOrphans, SafeRelease;
    var session := s.sessions[who];
    match session {
      case StoppingVictim(target, socket) =>
        ReleaseIff(cfg, s, who, Starting(target), socket);
      case Registering(_, socket) =>
        ReleaseIff(cfg, s, who, Idle, socket);
    }
  }

  lemma SessionStepIff(cfg: Config, s: System, who: nat, act: Act)
    requires who < |s.sessions| && SystemCanonical(cfg, s) && NoOrphans(cfg, s)
    ensures NoOrphans(cfg, Next(cfg, s, SessionStep(who, act))) <==> SafeStep(cfg, s, SessionStep(who, act))
  {
    hide SystemCanonical, NoOrphans, SafeRemoval, SafeRelease, ActOn;
    if s.sessions[who].DroppingStale? {
      StaleDropIff(cfg, s, who, act);
    } else if Releases(s.sessions[who], act) {
      SessionReleaseIff(cfg, s, who, act);
    } else {
      SessionStepKeeps(cfg, s, who, act);
    }
  }

  lemma MarksTrack(cfg: Config, v: HealthView, act: HealthAct, socket: Path)
    requires !v.task.Dropping?
    ensures Tracked(HealthOn(cfg, v, act).conns, socket) <==> Tracked(v.conns, socket)
  {
    hide Enumerates;
    var m, m' := v.conns, HealthOn(cfg, v, act).conns;
    assert m'.Keys == m.Keys && forall k | k in m :: m'[k].controlSocket == m[k].controlSocket;
    if k :| k in m && m[k].controlSocket == socket {
      assert k in m';
    }
    if k :| k in m' && m'[k].controlSocket == socket {
      assert k in m;
    }
  }

  lemma HealthStarts(cfg: Config, v: HealthView, act: HealthAct)
    ensures HealthOn(cfg, v, act).live ==
            v.live +
            if v.task.Restarting? && act.RestartAnswers? && act.result.Started? then {v.task.conn.controlSocket} else {}
  {
    hide Enumerates;
  }

  lemma HealthStepIff(cfg: Config, s: System, act: HealthAct)
    requires NoOrphans(cfg, s)
    ensures NoOrphans(cfg, Next(cfg, s, HealthStep(act))) <==> SafeStep(cfg, s, HealthStep(act))
  {
    var v, s' := HealthView(s.health, s.conns, s.live), Next(cfg, s, HealthStep(act));
    if s.health.Dropping? {
      RemovalIff(cfg, s, s.health.key);
      assert forall socket :: Owned(cfg, s', socket) <==>
                              Owned(cfg, s.(conns := s'.conns), socket);
    } else {
      hide HealthOn, Tracked, Held;
      HealthStarts(cfg, v, act);
      forall socket
        ensures Owned(cfg, s', socket) <==> Owned(cfg, s, socket)
      {
        MarksTrack(cfg, v, act, socket);
      }
    }
  }

  lemma RemovedForClosing(cfg: Config, s: System, key: string)
    requires NoOrphans(cfg, s)
    ensures NoOrphans(cfg, Next(cfg, s, CloseRemoves(key)))
  {
    hide Held;
    var s' := Next(cfg, s, CloseRemoves(key));
    forall socket | socket in s'.live
      ensures Owned(cfg, s', socket)
    {
      if !(key in s.conns && s.conns[key].controlSocket == socket) {
        RemovalOwned(cfg, s, key, socket);
      }
    }
  }

  lemma CloseStopsIff(cfg: Config, s: System, socket: Path, stopped: bool)
    requires NoOrphans(cfg, s)
    ensures NoOrphans(cfg, Next(cfg, s, CloseStops(socket, stopped))) <==> SafeStep(cfg, s, CloseStops(socket, stopped))
  {
    hide Tracked, Held;
    var s' := Next(cfg, s, CloseStops(socket, stopped));
    forall other | other in s'.live && other != socket
      ensures Owned(cfg, s', other)
    {
      assert Owned(cfg, s, other);
      assert other in s.closing ==> other in s'.closing;
    }
  }

  /**
   A step from a state without orphans leaves none exactly when it is safe, whatever
   probes answer and stops achieve.
   */
  lemma StepOrphansIff(cfg: Config, s: System, step: Step)
    requires SystemCanonical(cfg, s) && NoOrphans(cfg, s)
    ensures NoOrphans(cfg, Next(cfg, s, step)) <==> SafeStep(cfg, s, step)
  {
    match step {
      case SessionStep(who, act) =>
        if who < |s.sessions| {
          SessionStepIff(cfg, s, who, act);
        }
      case HealthStep(act) => HealthStepIff(cfg, s, act);
      case CloseRemoves(key) => RemovedForClosing(cfg, s, key);
      case CloseStops(socket, stopped) => CloseStopsIff(cfg, s, socket, stopped);
      case MasterDies(_) => hide ActOn, HealthOn;
    }
  }

  // ---------------------------------------------------------------- whole runs

  /** No orphan at any moment of the run. */
  ghost predicate NeverOrphans(cfg: Config, k: nat, steps: seq<Step>) {
    forall n | 0 <= n <= |steps| :: NoOrphans(cfg, Run(cfg, k, steps[..n]))
  }

  ghost predicate AllSafe(cfg: Config, k: nat, steps: seq<Step>) {
    forall n | 0 <= n < |steps| :: SafeStep(cfg, Run(cfg, k, steps[..n]), steps[n])
  }

  lemma RunExtends(cfg: Config, k: nat, steps: seq<Step>, n: nat)
    requires n < |steps|
    ensures Run(cfg, k, steps[..n + 1]) == Next(cfg, Run(cfg, k, steps[..n]), steps[n])
  {
    hide Next;
    assert steps[..n + 1][..n] == steps[..n];
  }

  lemma {:induction false} SafePrefix(cfg: Config, k: nat, steps: seq<Step>, n: nat)
    requires AllSafe(cfg, k, steps) && n <= |steps|
    ensures NoOrphans(cfg, Run(cfg, k, steps[..n]))
  {
    hide SafeStep, Run;
    if n == 0 {
      NothingLive(cfg, k);
      assert steps[..0] == [];
    } else {
      SafePrefix(cfg, k, steps, n - 1);
      RunExtends(cfg, k, steps, n - 1);
      SocketsCanonical(cfg, k, steps[..n - 1]);
      StepOrphansIff(cfg, Run(cfg, k, steps[..n - 1]), steps[n - 1]);
    }
  }

  lemma NothingLive(cfg: Config, k: nat)
    ensures NoOrphans(cfg, Run(cfg, k, []))
  {
  }

  /**
   In every interleaving of any number of sessions with the health task, close requests
   and dying masters, whatever `ssh` answers: no live master is ever without an owner if
   and only if every step was safe when it was taken.
   */
  lemma OrphanFreeIff(cfg: Config, k: nat, steps: seq<Step>)
    ensures NeverOrphans(cfg, k, steps) <==> AllSafe(cfg, k, steps)
  {
    hide SafeStep, Run, NoOrphans, SystemCanonical;
    if AllSafe(cfg, k, steps) {
      forall n | 0 <= n <= |steps|
        ensures NoOrphans(cfg, Run(cfg, k, steps[..n]))
      {
        SafePrefix(cfg, k, steps, n);
      }
    }
    if NeverOrphans(cfg, k, steps) {
      forall n | 0 <= n < |steps|
        ensures SafeStep(cfg, Run(cfg, k, steps[..n]), steps[n])
      {
        RunExtends(cfg, k, steps, n);
        SocketsCanonical(cfg, k, steps[..n]);
        assert NoOrphans(cfg, Run(cfg, k, steps[..n + 1]));
        StepOrphansIff(cfg, Run(cfg, k, steps[..n]), steps[n]);
      }
    }
  }
}
