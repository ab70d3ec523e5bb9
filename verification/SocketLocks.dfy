/** A lock on socket paths, which the daemon does not have, would keep every master owned. */
module SocketLocks {
  import opened Outcomes
  import opened Orders
  import opened Destination
  import opened Connections
  import opened Daemon
  import opened Interleaving
  import opened InterleavingTheorems
  import opened Orphans

  /** What was found dead is still dead, and what the health task may restart is still tracked. */
  ghost predicate ProbesStand(cfg: Config, s: System) {
    && (forall i | 0 <= i < |s.sessions| && s.sessions[i].DroppingStale? ::
          cfg.pathOf(s.sessions[i].target.Key()) !in s.live)
    && (s.health.Dropping? || s.health.Restarting? ==> cfg.pathOf(s.health.key) !in s.live)
    && (s.health.CheckingEntry? || s.health.Restarting? ==>
          s.health.key in s.conns && s.health.conn.controlSocket == cfg.pathOf(s.health.key))
  }

  /** No live master is reported dead, no stop fails and no registration is lost. */
  ghost predicate HonestStep(s: System, step: Step) {
    match step
    case SessionStep(who, act) =>
      && (who < |s.sessions| && s.sessions[who].Probing? && act.ProbeAnswers? ==>
            s.sessions[who].existing in s.live ==> act.alive)
      && (act.StopVictim? ==> act.stopped)
      && !act.LoseRegistration?
    case HealthStep(act) =>
      s.health.CheckingEntry? && act.EntryAnswers? && s.health.conn.controlSocket in s.live ==> act.alive
    case CloseStops(_, stopped) => stopped
    case _ => true
  }

  /**
   The effect a lock is to have: no master comes to live that someone is about to drop as
   dead, and no entry goes that the health task is looking at.
   */
  ghost predicate ExclusiveStep(cfg: Config, s: System, step: Step) {
    var s' := Next(cfg, s, step);
    && (forall i | 0 <= i < |s.sessions| && s.sessions[i].DroppingStale? ::
          var p := cfg.pathOf(s.sessions[i].target.Key()); p in s'.live ==> p in s.live)
    && ((s.health.Dropping? || s.health.Restarting?) && !step.HealthStep? ==>
          var p := cfg.pathOf(s.health.key); p in s'.live ==> p in s.live)
    && (s.health.CheckingEntry? || s.health.Restarting? ==>
          (s.health.key in s.conns ==> s.health.key in s'.conns))
  }

  lemma ProbeActs(cfg: Config, v: View, act: Act)
    ensures var v' := ActOn(cfg, v, act);
            v'.session.DroppingStale? ==>
              || v'.session == v.session
              || (v.session.Probing? && act.ProbeAnswers? && !act.alive &&
                  v'.session.target == v.session.target && v'.live == v.live)
  {
    hide HostTarget.Key, HostTarget.Display, IsLru;
  }

  lemma SessionKeepsProbes(cfg: Config, s: System, who: nat, act: Act)
    requires who < |s.sessions| && SystemCanonical(cfg, s) && ProbesStand(cfg, s)
    requires HonestStep(s, SessionStep(who, act)) && ExclusiveStep(cfg, s, SessionStep(who, act))
    ensures ProbesStand(cfg, Next(cfg, s, SessionStep(who, act)))
  {
    hide HostTarget.Key, HostTarget.Display, ActOn, TableCanonical;
    ProbeActs(cfg, View(s.sessions[who], s.conns, s.live, s.missed), act);
  }

  lemma HealthKeepsProbes(cfg: Config, s: System, act: HealthAct)
    requires SystemCanonical(cfg, s) && ProbesStand(cfg, s)
    requires HonestStep(s, HealthStep(act)) && ExclusiveStep(cfg, s, HealthStep(act))
    ensures ProbesStand(cfg, Next(cfg, s, HealthStep(act)))
  {
    hide HostTarget.Key, HostTarget.Display, Enumerates, SessionCanonical, WithHealth, WithTouch;
  }

  lemma ExclusiveKeepsProbes(cfg: Config, s: System, step: Step)
    requires SystemCanonical(cfg, s) && ProbesStand(cfg, s)
    requires HonestStep(s, step) && ExclusiveStep(cfg, s, step)
    ensures ProbesStand(cfg, Next(cfg, s, step))
  {
    match step {
      case SessionStep(who, act) =>
        if who < |s.sessions| {
          SessionKeepsProbes(cfg, s, who, act);
        }
      case HealthStep(act) => HealthKeepsProbes(cfg, s, act);
      case _ =>
        hide HostTarget.Key, HostTarget.Display, SystemCanonical;
    }
  }

  /** While probes stand, no honest step is unsafe. */
  lemma StandingProbesAreSafe(cfg: Config, s: System, step: Step)
    requires SystemCanonical(cfg, s) && ProbesStand(cfg, s) && HonestStep(s, step)
    ensures SafeStep(cfg, s, step)
  {
    hide HostTarget.Key, HostTarget.Display, SessionCanonical;
  }

  /** The socket path a session has locked, from its look-up to its answer. */
  function SessionLock(cfg: Config, s: Session): Option<Path> {
    if s.Idle? || s.LookingUp? || s.Answered? then None else Some(cfg.pathOf(s.target.Key()))
  }

  /** The socket path the health task has locked, from its look at an entry to its last write. */
  function HealthLock(cfg: Config, h: HealthTask): Option<Path> {
    if h.Resting? || h.Scanning? then None else Some(cfg.pathOf(h.key))
  }

  /**
   What a lock on socket paths would make a step wait for, read off the state before it:
   a look-up waits until nobody else holds the path, and an eviction or a close waits
   until the health task does not hold the path of the entry to be removed.
   */
  ghost predicate LockGranted(cfg: Config, s: System, step: Step) {
    match step
    case SessionStep(who, act) =>
      who < |s.sessions| ==>
        && (s.sessions[who].LookingUp? && act.LookUp? ==>
              var lock := Some(cfg.pathOf(s.sessions[who].target.Key()));
              && HealthLock(cfg, s.health) != lock
              && forall i | 0 <= i < |s.sessions| && i != who :: SessionLock(cfg, s.sessions[i]) != lock)
        && (s.sessions[who].RemovingVictim? && act.RemoveVictim? ==>
              HealthLock(cfg, s.health) != Some(cfg.pathOf(s.sessions[who].victim)))
    case HealthStep(act) =>
      s.health.Scanning? && s.health.rest != [] && act.LookAtNext? ==>
        forall i | 0 <= i < |s.sessions| :: SessionLock(cfg, s.sessions[i]) != Some(cfg.pathOf(s.health.rest[0]))
    case CloseRemoves(key) => HealthLock(cfg, s.health) != Some(cfg.pathOf(key))
    case _ => true
  }

  /** No two parties hold the same path. */
  ghost predicate LocksExclude(cfg: Config, s: System) {
    && (forall i, j | 0 <= i < j < |s.sessions| && SessionLock(cfg, s.sessions[i]).Some? ::
          SessionLock(cfg, s.sessions[i]) != SessionLock(cfg, s.sessions[j]))
    && (forall i | 0 <= i < |s.sessions| && SessionLock(cfg, s.sessions[i]).Some? ::
          SessionLock(cfg, s.sessions[i]) != HealthLock(cfg, s.health))
  }

  /** A lock is taken by the look-up only, and kept or given back by every other act. */
  lemma ActLocks(cfg: Config, v: View, act: Act)
    ensures var v' := ActOn(cfg, v, act);
            || SessionLock(cfg, v'.session) == SessionLock(cfg, v.session)
            || SessionLock(cfg, v'.session) == None
            || (v.session.LookingUp? && act.LookUp? &&
                SessionLock(cfg, v'.session) == Some(cfg.pathOf(v.session.target.Key())))
  {
    hide HostTarget.Key, HostTarget.Display, IsLru, WithReuse, NewConnection;
  }

  lemma HealthActLocks(cfg: Config, v: HealthView, act: HealthAct)
    ensures var v' := HealthOn(cfg, v, act);
            || HealthLock(cfg, v'.task) == HealthLock(cfg, v.task)
            || HealthLock(cfg, v'.task) == None
            || (v.task.Scanning? && v.task.rest != [] && act.LookAtNext? &&
                HealthLock(cfg, v'.task) == Some(cfg.pathOf(v.task.rest[0])))
  {
    hide Enumerates, WithHealth, WithTouch;
  }

  lemma LocksKept(cfg: Config, s: System, step: Step)
    requires LocksExclude(cfg, s) && LockGranted(cfg, s, step)
    ensures LocksExclude(cfg, Next(cfg, s, step))
  {
    hide HostTarget.Key, HostTarget.Display, ActOn, HealthOn, SessionLock, HealthLock;
    match step {
      case SessionStep(who, act) =>
        if who < |s.sessions| {
          ActLocks(cfg, View(s.sessions[who], s.conns, s.live, s.missed), act);
        }
      case HealthStep(act) =>
        HealthActLocks(cfg, HealthView(s.health, s.conns, s.live), act);
      case _ =>
    }
  }

  /** A session brings to life only the master of the path it holds. */
  lemma StartsOwnPath(cfg: Config, v: View, act: Act, socket: Path)
    requires SessionCanonical(cfg, v.session)
    ensures var v' := ActOn(cfg, v, act);
            socket in v'.live && socket !in v.live ==>
              !v.session.DroppingStale? && SessionLock(cfg, v.session) == Some(socket)
  {
    hide HostTarget.Key, HostTarget.Display, IsLru, WithReuse, NewConnection;
  }

  /** A session removes only its own stale entry and its victim. */
  lemma RemovesOwnKeys(cfg: Config, v: View, act: Act, key: string)
    ensures key in v.conns && key !in ActOn(cfg, v, act).conns ==>
              || (v.session.DroppingStale? && key == v.session.target.Key())
              || (v.session.RemovingVictim? && act.RemoveVictim? && key == v.session.victim)
  {
    hide HostTarget.Key, HostTarget.Display, IsLru, NewConnection;
  }

  lemma SessionIsExclusive(cfg: Config, s: System, who: nat, act: Act)
    requires who < |s.sessions| && SystemCanonical(cfg, s)
    requires LocksExclude(cfg, s) && LockGranted(cfg, s, SessionStep(who, act))
    ensures ExclusiveStep(cfg, s, SessionStep(who, act))
  {
    hide HostTarget.Key, HostTarget.Display, ActOn, TableCanonical, SessionCanonical;
    var v, s' := View(s.sessions[who], s.conns, s.live, s.missed), Next(cfg, s, SessionStep(who, act));
    forall i | 0 <= i < |s.sessions| && s.sessions[i].DroppingStale?
      ensures var p := cfg.pathOf(s.sessions[i].target.Key()); p in s'.live ==> p in s.live
    {
      StartsOwnPath(cfg, v, act, cfg.pathOf(s.sessions[i].target.Key()));
    }
    if HealthLock(cfg, s.health).Some? {
      StartsOwnPath(cfg, v, act, cfg.pathOf(s.health.key));
      RemovesOwnKeys(cfg, v, act, s.health.key);
    }
  }

  lemma HealthIsExclusive(cfg: Config, s: System, act: HealthAct)
    requires ProbesStand(cfg, s) && LocksExclude(cfg, s)
    ensures ExclusiveStep(cfg, s, HealthStep(act))
  {
    hide HostTarget.Key, HostTarget.Display, Enumerates, WithHealth, WithTouch;
    HealthStarts(cfg, HealthView(s.health, s.conns, s.live), act);
    if !s.health.Dropping? {
      MarksKeepKeys(cfg, HealthView(s.health, s.conns, s.live), act);
    }
  }

  /** The lock has its effect. */
  lemma LockIsExclusive(cfg: Config, s: System, step: Step)
    requires SystemCanonical(cfg, s) && ProbesStand(cfg, s)
    requires LocksExclude(cfg, s) && LockGranted(cfg, s, step)
    ensures ExclusiveStep(cfg, s, step)
  {
    match step {
      case SessionStep(who, act) =>
        if who < |s.sessions| {
          SessionIsExclusive(cfg, s, who, act);
        }
      case HealthStep(act) => HealthIsExclusive(cfg, s, act);
      case _ =>
        hide HostTarget.Key, HostTarget.Display, SystemCanonical, ProbesStand;
    }
  }

  ghost predicate AllHonest(cfg: Config, k: nat, steps: seq<Step>) {
    forall n | 0 <= n < |steps| :: HonestStep(Run(cfg, k, steps[..n]), steps[n])
  }

  /** Every step of the run waited for its lock. */
  ghost predicate AllGranted(cfg: Config, k: nat, steps: seq<Step>) {
    forall n | 0 <= n < |steps| :: LockGranted(cfg, Run(cfg, k, steps[..n]), steps[n])
  }

  lemma NothingHeld(cfg: Config, k: nat)
    ensures ProbesStand(cfg, Run(cfg, k, [])) && LocksExclude(cfg, Run(cfg, k, []))
  {
  }

  lemma {:induction false} LockHolds(cfg: Config, k: nat, steps: seq<Step>, n: nat)
    requires AllGranted(cfg, k, steps) && n <= |steps|
    ensures LocksExclude(cfg, Run(cfg, k, steps[..n]))
  {
    hide LockGranted, Run, LocksExclude, ProbesStand;
    if n == 0 {
      NothingHeld(cfg, k);
      assert steps[..0] == [];
    } else {
      LockHolds(cfg, k, steps, n - 1);
      RunExtends(cfg, k, steps, n - 1);
      LocksKept(cfg, Run(cfg, k, steps[..n - 1]), steps[n - 1]);
    }
  }

  lemma {:induction false} ProbesStandThroughout(cfg: Config, k: nat, steps: seq<Step>, n: nat)
    requires AllHonest(cfg, k, steps) && AllGranted(cfg, k, steps) && n <= |steps|
    ensures ProbesStand(cfg, Run(cfg, k, steps[..n]))
  {
    hide HonestStep, LockGranted, ExclusiveStep, Run, ProbesStand, LocksExclude, SystemCanonical;
    if n == 0 {
      NothingHeld(cfg, k);
      assert steps[..0] == [];
    } else {
      var before := Run(cfg, k, steps[..n - 1]);
      ProbesStandThroughout(cfg, k, steps, n - 1);
      RunExtends(cfg, k, steps, n - 1);
      SocketsCanonical(cfg, k, steps[..n - 1]);
      LockHolds(cfg, k, steps, n - 1);
      LockIsExclusive(cfg, before, steps[n - 1]);
      ExclusiveKeepsProbes(cfg, before, steps[n - 1]);
    }
  }

  /**
   A lock on socket paths would do: in every interleaving in which sessions and health
   task hold the path from look-up to last write, and evictions and closes wait for the
   health task, no two parties ever hold the same path, and no honest run orphans a
   master, even if keys share a path.
   */
  lemma LockedRunsNeverOrphan(cfg: Config, k: nat, steps: seq<Step>)
    requires AllGranted(cfg, k, steps)
    ensures forall n | 0 <= n <= |steps| :: LocksExclude(cfg, Run(cfg, k, steps[..n]))
    ensures AllHonest(cfg, k, steps) ==> NeverOrphans(cfg, k, steps)
  {
    hide HonestStep, LockGranted, SafeStep, Run, ProbesStand, LocksExclude, SystemCanonical, NeverOrphans;
    forall n | 0 <= n <= |steps|
      ensures LocksExclude(cfg, Run(cfg, k, steps[..n]))
    {
      LockHolds(cfg, k, steps, n);
    }
    if AllHonest(cfg, k, steps) {
      forall n | 0 <= n < |steps|
        ensures SafeStep(cfg, Run(cfg, k, steps[..n]), steps[n])
      {
        ProbesStandThroughout(cfg, k, steps, n);
        SocketsCanonical(cfg, k, steps[..n]);
        StandingProbesAreSafe(cfg, Run(cfg, k, steps[..n]), steps[n]);
      }
      OrphanFreeIff(cfg, k, steps);
    }
  }
}
