/** Runs of whole operations, with masters dying and the CLI handing masters over in between. */
module Lifecycle {
  import opened Outcomes
  import opened Orders
  import opened Destination
  import DT = DestinationTheorems
  import opened Connections
  import opened Metrics
  import opened MetricsTheorems
  import opened Daemon

  /**
   `handovers` are the CLI sessions that have started a master themselves and not
   yet registered it.
   */
  datatype World = World(daemon: DaemonState, handovers: multiset<HostTarget>)

  datatype Op =
    | EnsureConnection(target: HostTarget, victim: string, ensureAnswers: EnsureAnswers)
    | StartInteractive(target: HostTarget)
    | RegisterExternalMaster(target: HostTarget, pid: Option<nat>, at: nat, metricsAt: nat)
    | CloseConnection(key: string, stopped: bool)
    | HealthPass(order: seq<string>, answers: string -> HealthAnswer)
    | MasterDies(socket: Path)

  function Next(cfg: Config, w: World, op: Op): World {
    match op
    case EnsureConnection(target, victim, a) => w.(daemon := Ensure(cfg, w.daemon, target, victim, a).0)
    case StartInteractive(target) =>
      World(w.daemon.(live := w.daemon.live + {cfg.pathOf(target.Key())}), w.handovers + multiset{target})
    case RegisterExternalMaster(target, pid, at, metricsAt) =>
      World(Register(w.daemon, target, cfg.pathOf(target.Key()), pid, at, metricsAt), w.handovers - multiset{target})
    case CloseConnection(key, stopped) => w.(daemon := Close(w.daemon, key, stopped).0)
    case HealthPass(order, answers) => w.(daemon := CheckKeys(cfg, w.daemon, order, answers))
    case MasterDies(socket) => w.(daemon := w.daemon.(live := w.daemon.live - {socket}))
  }

  function Started(m: MetricsState): World {
    World(DaemonState(map[], m, [], {}), multiset{})
  }

  function RunOps(cfg: Config, m: MetricsState, ops: seq<Op>): World {
    if ops == [] then Started(m)
    else Next(cfg, RunOps(cfg, m, ops[..|ops| - 1]), ops[|ops| - 1])
  }

  // ---------------------------------------------------------------- canonical sockets

  lemma CheckOneCanonical(cfg: Config, d: DaemonState, key: string, a: HealthAnswer)
    requires TableCanonical(cfg, d.conns)
    ensures TableCanonical(cfg, CheckOne(cfg, d, key, a).conns)
  {
  }

  lemma {:induction false} CheckKeysCanonical(cfg: Config, d: DaemonState, order: seq<string>,
                                              answers: string -> HealthAnswer)
    requires TableCanonical(cfg, d.conns)
    ensures TableCanonical(cfg, CheckKeys(cfg, d, order, answers).conns)
  {
    if order != [] {
      var n := |order| - 1;
      CheckKeysCanonical(cfg, d, order[..n], answers);
      CheckOneCanonical(cfg, CheckKeys(cfg, d, order[..n], answers), order[n], answers(order[n]));
    }
  }

  lemma StartCanonical(cfg: Config, d: DaemonState, target: HostTarget, a: EnsureAnswers)
    requires TableCanonical(cfg, d.conns)
    ensures TableCanonical(cfg, StartNew(cfg, d, target, a).0.conns)
    ensures var reply := StartNew(cfg, d, target, a).1;
            reply.ConnectionReady? || reply.NeedsInteractive? ==> reply.controlSocket == cfg.pathOf(target.Key())
  {
    hide HostTarget.Key, HostTarget.Display;
  }

  lemma EnsureCanonical(cfg: Config, d: DaemonState, target: HostTarget, victim: string, a: EnsureAnswers)
    requires TableCanonical(cfg, d.conns)
    ensures TableCanonical(cfg, Ensure(cfg, d, target, victim, a).0.conns)
    ensures var reply := Ensure(cfg, d, target, victim, a).1;
            reply.ConnectionReady? || reply.NeedsInteractive? ==> reply.controlSocket == cfg.pathOf(target.Key())
  {
    hide HostTarget.Key, HostTarget.Display, StartNew;
    var key := target.Key();
    if !(key in d.conns && a.alive) {
      var d1 := WithoutStale(d, key);
      assert TableCanonical(cfg, d1.conns);
      var d2 := WithRoom(cfg, d1, victim, a.stopped);
      assert TableCanonical(cfg, d2.conns);
      StartCanonical(cfg, d2, target, a);
    }
  }

  lemma {:induction false} SocketsStayCanonical(cfg: Config, m: MetricsState, ops: seq<Op>)
    ensures TableCanonical(cfg, RunOps(cfg, m, ops).daemon.conns)
  {
    hide HostTarget.Key, HostTarget.Display, Ensure, CheckKeys;
    if ops != [] {
      var before, op := RunOps(cfg, m, ops[..|ops| - 1]), ops[|ops| - 1];
      SocketsStayCanonical(cfg, m, ops[..|ops| - 1]);
      match op {
        case EnsureConnection(target, victim, a) => EnsureCanonical(cfg, before.daemon, target, victim, a);
        case HealthPass(order, answers) => CheckKeysCanonical(cfg, before.daemon, order, answers);
        case _ =>
      }
    }
  }

  // ---------------------------------------------------------------- no orphan masters

  /** The health probes of a pass, each exact at its own moment. */
  ghost predicate ExactPass(cfg: Config, d: DaemonState, order: seq<string>, answers: string -> HealthAnswer) {
    order == [] ||
    var n := |order| - 1;
    var before := CheckKeys(cfg, d, order[..n], answers);
    && ExactPass(cfg, d, order[..n], answers)
    && (order[n] in before.conns ==> (answers(order[n]).alive <==> before.conns[order[n]].controlSocket in before.live))
  }

  /** Exact liveness answers, successful stops, and only started masters are handed over. */
  ghost predicate Faithful(cfg: Config, w: World, op: Op) {
    match op
    case EnsureConnection(target, _, a) =>
      && a.stopped
      && (target.Key() in w.daemon.conns ==> (a.alive <==> w.daemon.conns[target.Key()].controlSocket in w.daemon.live))
    case RegisterExternalMaster(target, _, _, _) => target in w.handovers
    case CloseConnection(_, stopped) => stopped
    case HealthPass(order, answers) => Enumerates(order, w.daemon.conns) && ExactPass(cfg, w.daemon, order, answers)
    case _ => true
  }

  ghost predicate FaithfulRun(cfg: Config, m: MetricsState, ops: seq<Op>) {
    ops == [] ||
    var before := ops[..|ops| - 1];
    FaithfulRun(cfg, m, before) && Faithful(cfg, RunOps(cfg, m, before), ops[|ops| - 1])
  }

  ghost predicate Accounted(cfg: Config, conns: Table, handovers: multiset<HostTarget>, socket: Path) {
    || (exists k :: k in conns && conns[k].controlSocket == socket)
    || (exists t :: t in handovers && cfg.pathOf(t.Key()) == socket)
  }

  /** Every live master is tracked or about to be handed over. */
  ghost predicate NoStrayMasters(cfg: Config, w: World) {
    forall socket | socket in w.daemon.live :: Accounted(cfg, w.daemon.conns, w.handovers, socket)
  }

  /** Dropping an entry whose socket is not live any more orphans nobody. */
  lemma RemoveKeepsOwned(cfg: Config, conns: Table, handovers: multiset<HostTarget>, key: string, socket: Path)
    requires key in conns
    requires Accounted(cfg, conns, handovers, socket) && socket != conns[key].controlSocket
    ensures Accounted(cfg, conns - {key}, handovers, socket)
  {
    if k :| k in conns && conns[k].controlSocket == socket {
      assert k in conns - {key};
    }
  }

  lemma EvictionKeeps(cfg: Config, d: DaemonState, handovers: multiset<HostTarget>, victim: string)
    requires NoStrayMasters(cfg, World(d, handovers))
    ensures NoStrayMasters(cfg, World(EvictionOf(d, victim, true), handovers))
  {
    var d' := EvictionOf(d, victim, true);
    if d' != d {
      forall socket | socket in d'.live
        ensures Accounted(cfg, d'.conns, handovers, socket)
      {
        RemoveKeepsOwned(cfg, d.conns, handovers, victim, socket);
      }
    }
  }

  lemma StaleDropKeeps(cfg: Config, d: DaemonState, handovers: multiset<HostTarget>, key: string)
    requires NoStrayMasters(cfg, World(d, handovers))
    requires key in d.conns ==> d.conns[key].controlSocket !in d.live
    ensures NoStrayMasters(cfg, World(WithoutStale(d, key), handovers))
  {
    if key in d.conns {
      forall socket | socket in d.live
        ensures Accounted(cfg, d.conns - {key}, handovers, socket)
      {
        RemoveKeepsOwned(cfg, d.conns, handovers, key, socket);
      }
    }
  }

  lemma InsertKeepsOwned(cfg: Config, conns: Table, conns': Table, key: string, socket: Path,
                         handovers: multiset<HostTarget>, handovers': multiset<HostTarget>, target: HostTarget)
    requires target.Key() == key
    requires Accounted(cfg, conns, handovers, socket) && socket != cfg.pathOf(key)
    requires key in conns ==> conns[key].controlSocket == cfg.pathOf(key)
    requires handovers' == handovers || handovers' == handovers - multiset{target}
    requires forall k | k in conns && k != key :: k in conns' && conns'[k] == conns[k]
    ensures Accounted(cfg, conns', handovers', socket)
  {
    hide HostTarget.Key, HostTarget.Display;
    if k :| k in conns && conns[k].controlSocket == socket {
      assert k in conns';
    } else {
      var t :| t in handovers && cfg.pathOf(t.Key()) == socket;
      assert t in handovers';
    }
  }

  /** Entering a target under its key with its socket, over whatever stood there, orphans nobody. */
  lemma InsertKeeps(cfg: Config, d: DaemonState, handovers: multiset<HostTarget>, handovers': multiset<HostTarget>,
                    d': DaemonState, target: HostTarget)
    requires TableCanonical(cfg, d.conns)
    requires NoStrayMasters(cfg, World(d, handovers))
    requires handovers' == handovers || handovers' == handovers - multiset{target}
    requires d'.live <= d.live + {cfg.pathOf(target.Key())}
    requires target.Key() in d'.conns
    requires forall k | k in d.conns && k != target.Key() :: k in d'.conns && d'.conns[k] == d.conns[k]
    requires d'.conns[target.Key()].controlSocket == cfg.pathOf(target.Key())
    ensures NoStrayMasters(cfg, World(d', handovers'))
  {
    hide HostTarget.Key, HostTarget.Display, Accounted;
    var key := target.Key();
    forall socket | socket in d'.live
      ensures Accounted(cfg, d'.conns, handovers', socket)
    {
      if socket == cfg.pathOf(key) {
        EntryOwns(cfg, d'.conns, handovers', key);
      } else {
        InsertKeepsOwned(cfg, d.conns, d'.conns, key, socket, handovers, handovers', target);
      }
    }
  }

  lemma EntryOwns(cfg: Config, conns: Table, handovers: multiset<HostTarget>, key: string)
    requires key in conns
    ensures Accounted(cfg, conns, handovers, conns[key].controlSocket)
  {
  }

  lemma StartKeeps(cfg: Config, d: DaemonState, handovers: multiset<HostTarget>, target: HostTarget, a: EnsureAnswers)
    requires TableCanonical(cfg, d.conns) && NoStrayMasters(cfg, World(d, handovers))
    ensures NoStrayMasters(cfg, World(StartNew(cfg, d, target, a).0, handovers))
  {
    hide HostTarget.Key, HostTarget.Display;
    if a.pathError.None? && a.start.Started? {
      InsertKeeps(cfg, d, handovers, handovers, StartNew(cfg, d, target, a).0, target);
    }
  }

  lemma EnsureKeeps(cfg: Config, w: World, target: HostTarget, victim: string, a: EnsureAnswers)
    requires TableCanonical(cfg, w.daemon.conns) && NoStrayMasters(cfg, w)
    requires Faithful(cfg, w, EnsureConnection(target, victim, a))
    ensures NoStrayMasters(cfg, Next(cfg, w, EnsureConnection(target, victim, a)))
  {
    hide HostTarget.Key, HostTarget.Display;
    var d, key := w.daemon, target.Key();
    if key in d.conns && a.alive {
      InsertKeeps(cfg, d, w.handovers, w.handovers, Reused(d, target, a), target);
    } else {
      StaleDropKeeps(cfg, d, w.handovers, key);
      var d1 := WithoutStale(d, key);
      EvictionKeeps(cfg, d1, w.handovers, victim);
      StartKeeps(cfg, WithRoom(cfg, d1, victim, a.stopped), w.handovers, target, a);
    }
  }

  lemma CheckOneKeeps(cfg: Config, d: DaemonState, handovers: multiset<HostTarget>, key: string, a: HealthAnswer)
    requires NoStrayMasters(cfg, World(d, handovers))
    requires key in d.conns ==> (a.alive <==> d.conns[key].controlSocket in d.live)
    ensures NoStrayMasters(cfg, World(CheckOne(cfg, d, key, a), handovers))
  {
    var d' := CheckOne(cfg, d, key, a);
    if key in d.conns {
      forall socket | socket in d'.live
        ensures Accounted(cfg, d'.conns, handovers, socket)
      {
        if key in d'.conns {
          assert forall k | k in d.conns :: d'.conns[k].controlSocket == d.conns[k].controlSocket;
          if socket == d.conns[key].controlSocket {
            assert d'.conns[key].controlSocket == socket;
          } else if k :| k in d.conns && d.conns[k].controlSocket == socket {
            assert k in d'.conns;
          }
        } else {
          RemoveKeepsOwned(cfg, d.conns, handovers, key, socket);
        }
      }
    }
  }

  lemma {:induction false} HealthPassKeeps(cfg: Config, d: DaemonState, handovers: multiset<HostTarget>,
                                           order: seq<string>, answers: string -> HealthAnswer)
    requires NoStrayMasters(cfg, World(d, handovers)) && ExactPass(cfg, d, order, answers)
    ensures NoStrayMasters(cfg, World(CheckKeys(cfg, d, order, answers), handovers))
  {
    if order != [] {
      var n := |order| - 1;
      HealthPassKeeps(cfg, d, handovers, order[..n], answers);
      CheckOneKeeps(cfg, CheckKeys(cfg, d, order[..n], answers), handovers, order[n], answers(order[n]));
    }
  }

  lemma InteractiveKeeps(cfg: Config, w: World, target: HostTarget)
    requires NoStrayMasters(cfg, w)
    ensures NoStrayMasters(cfg, Next(cfg, w, StartInteractive(target)))
  {
    hide HostTarget.Key, HostTarget.Display;
    var w' := Next(cfg, w, StartInteractive(target));
    forall socket | socket in w'.daemon.live
      ensures Accounted(cfg, w'.daemon.conns, w'.handovers, socket)
    {
      if socket == cfg.pathOf(target.Key()) {
        assert target in w'.handovers;
      } else if t :| t in w.handovers && cfg.pathOf(t.Key()) == socket {
        assert t in w'.handovers;
      }
    }
  }

  lemma RegisterKeeps(cfg: Config, w: World, op: Op)
    requires op.RegisterExternalMaster?
    requires TableCanonical(cfg, w.daemon.conns) && NoStrayMasters(cfg, w)
    ensures NoStrayMasters(cfg, Next(cfg, w, op))
  {
    hide HostTarget.Key, HostTarget.Display, Accounted;
    InsertKeeps(cfg, w.daemon, w.handovers, w.handovers - multiset{op.target}, Next(cfg, w, op).daemon, op.target);
  }

  lemma DeathKeeps(cfg: Config, w: World, socket: Path)
    requires NoStrayMasters(cfg, w)
    ensures NoStrayMasters(cfg, Next(cfg, w, MasterDies(socket)))
  {
  }

  lemma NothingOwned(cfg: Config, m: MetricsState)
    ensures NoStrayMasters(cfg, Started(m))
  {
  }

  lemma CloseKeeps(cfg: Config, w: World, key: string)
    requires NoStrayMasters(cfg, w)
    ensures NoStrayMasters(cfg, Next(cfg, w, CloseConnection(key, true)))
  {
    hide HostTarget.Key, HostTarget.Display;
    if key in w.daemon.conns {
      var d' := Next(cfg, w, CloseConnection(key, true)).daemon;
      forall socket | socket in d'.live
        ensures Accounted(cfg, d'.conns, w.handovers, socket)
      {
        RemoveKeepsOwned(cfg, w.daemon.conns, w.handovers, key, socket);
      }
    }
  }

  /**
   With exact liveness answers, successful stops and delivered handovers, no run of
   whole operations loses track of a live master, whatever masters die in between
   and even if keys share a socket path.
   */
  lemma {:induction false} NoOrphanMasters(cfg: Config, m: MetricsState, ops: seq<Op>)
    requires FaithfulRun(cfg, m, ops)
    ensures NoStrayMasters(cfg, RunOps(cfg, m, ops))
  {
    hide HostTarget.Key, HostTarget.Display, Ensure, CheckKeys, Close, Register, ExactPass, NoStrayMasters,
         TableCanonical;
    NothingOwned(cfg, m);
    if ops != [] {
      var before, op := ops[..|ops| - 1], ops[|ops| - 1];
      NoOrphanMasters(cfg, m, before);
      SocketsStayCanonical(cfg, m, before);
      var w := RunOps(cfg, m, before);
      match op {
        case EnsureConnection(target, victim, a) =>
          EnsureKeeps(cfg, w, target, victim, a);
        case StartInteractive(target) =>
          InteractiveKeeps(cfg, w, target);
        case RegisterExternalMaster(target, _, _, _) =>
          RegisterKeeps(cfg, w, op);
        case CloseConnection(key, _) =>
          CloseKeeps(cfg, w, key);
        case HealthPass(order, answers) =>
          HealthPassKeeps(cfg, w.daemon, w.handovers, order, answers);
        case MasterDies(socket) =>
          DeathKeeps(cfg, w, socket);
      }
    }
  }

  // ---------------------------------------------------------------- trace, table and metrics

  predicate IsOpened(mark: Mark, key: string) {
    mark.Emitted? && mark.event.ConnectionOpened? && mark.event.key == key
  }

  predicate IsReused(mark: Mark, key: string) {
    mark.Emitted? && mark.event.ConnectionReused? && mark.event.key == key
  }

  function OpenedCount(history: seq<Mark>, key: string): nat {
    if history == [] then 0
    else OpenedCount(history[..|history| - 1], key) + if IsOpened(history[|history| - 1], key) then 1 else 0
  }

  function ReusedCount(history: seq<Mark>, key: string): nat {
    if history == [] then 0
    else ReusedCount(history[..|history| - 1], key) + if IsReused(history[|history| - 1], key) then 1 else 0
  }

  /** Reuses of a key since it was last opened. */
  function ReusedSinceOpened(history: seq<Mark>, key: string): nat {
    if history == [] || IsOpened(history[|history| - 1], key) then 0
    else ReusedSinceOpened(history[..|history| - 1], key) + if IsReused(history[|history| - 1], key) then 1 else 0
  }

  /** The keys opened and not since closed, evicted or dropped as stale. */
  function OpenKeys(history: seq<Mark>): set<string> {
    if history == [] then {}
    else
      var before := OpenKeys(history[..|history| - 1]);
      match history[|history| - 1]
      case Emitted(ConnectionOpened(key, _)) => before + {key}
      case Emitted(ConnectionClosed(key, _)) => before - {key}
      case Evicted(key) => before - {key}
      case DroppedStale(key) => before - {key}
      case _ => before
  }

  /** The history determines the tracked keys, the reuse counts and the per-host counters. */
  ghost predicate Agrees(d: DaemonState) {
    && d.conns.Keys == OpenKeys(d.history)
    && (forall k | k in d.conns :: d.conns[k].reusedCount == ReusedSinceOpened(d.history, k))
    && (forall k :: StatOf(d.metrics.perHost, k, Connections) == OpenedCount(d.history, k) + ReusedCount(d.history, k))
    && (forall k :: StatOf(d.metrics.perHost, k, Reuses) == ReusedCount(d.history, k))
  }

  lemma Appended(history: seq<Mark>, mark: Mark)
    ensures (history + [mark])[..|history + [mark]| - 1] == history
    ensures (history + [mark])[|history + [mark]| - 1] == mark
    ensures forall k :: OpenedCount(history + [mark], k) == OpenedCount(history, k) + if IsOpened(mark, k) then 1 else 0
    ensures forall k :: ReusedCount(history + [mark], k) == ReusedCount(history, k) + if IsReused(mark, k) then 1 else 0
    ensures forall k :: ReusedSinceOpened(history + [mark], k) ==
                        if IsOpened(mark, k) then 0
                        else ReusedSinceOpened(history, k) + if IsReused(mark, k) then 1 else 0
  {
    var longer := history + [mark];
    assert longer[..|longer| - 1] == history;
  }

  lemma OpenedAgrees(d: DaemonState, target: HostTarget, socket: Path, pid: Option<nat>, latencyMs: Option<nat>,
                     at: nat, metricsAt: nat)
    requires Agrees(d)
    ensures Agrees(Opened(d, target, socket, pid, latencyMs, at, metricsAt))
  {
    hide HostTarget.Key, HostTarget.Display;
    Appended(d.history, Emitted(ConnectionOpened(target.Key(), target.Display())));
  }

  lemma ReusedAgrees(d: DaemonState, target: HostTarget, a: EnsureAnswers)
    requires Agrees(d) && target.Key() in d.conns
    ensures Agrees(Reused(d, target, a))
  {
    hide HostTarget.Key, HostTarget.Display;
    Appended(d.history, Emitted(ConnectionReused(target.Key(), target.Display())));
  }

  lemma FailureAgrees(d: DaemonState, target: HostTarget, reason: string, now: nat)
    requires Agrees(d)
    ensures Agrees(d.(metrics := FailureRecorded(d.metrics, now, target.Key(), target.Display()),
                      history := d.history + [Emitted(AuthenticationFailed(target.Display(), reason))]))
  {
    hide HostTarget.Key, HostTarget.Display;
    Appended(d.history, Emitted(AuthenticationFailed(target.Display(), reason)));
  }

  lemma RemovedAgrees(d: DaemonState, key: string, mark: Mark, live: set<Path>)
    requires Agrees(d)
    requires mark == Evicted(key) || mark == DroppedStale(key) ||
             (mark.Emitted? && mark.event.ConnectionClosed? && mark.event.key == key)
    ensures Agrees(d.(conns := d.conns - {key}, history := d.history + [mark], live := live))
  {
    Appended(d.history, mark);
  }

  lemma CheckOneAgrees(cfg: Config, d: DaemonState, key: string, a: HealthAnswer)
    requires Agrees(d)
    ensures Agrees(CheckOne(cfg, d, key, a))
  {
    if key in d.conns {
      var host := d.conns[key].target.Display();
      if a.alive {
      } else if cfg.reconnect && a.start.Started? {
        Appended(d.history, Emitted(Reconnected(key, host, 1)));
      } else {
        RemovedAgrees(d, key, Emitted(ConnectionClosed(key, host)), d.live);
      }
    }
  }

  lemma {:induction false} CheckKeysAgrees(cfg: Config, d: DaemonState, order: seq<string>,
                                           answers: string -> HealthAnswer)
    requires Agrees(d)
    ensures Agrees(CheckKeys(cfg, d, order, answers))
  {
    if order != [] {
      var n := |order| - 1;
      CheckKeysAgrees(cfg, d, order[..n], answers);
      CheckOneAgrees(cfg, CheckKeys(cfg, d, order[..n], answers), order[n], answers(order[n]));
    }
  }

  lemma EnsureAgrees(cfg: Config, d: DaemonState, target: HostTarget, victim: string, a: EnsureAnswers)
    requires Agrees(d)
    ensures Agrees(Ensure(cfg, d, target, victim, a).0)
  {
    hide HostTarget.Key, HostTarget.Display;
    var key := target.Key();
    if key in d.conns && a.alive {
      ReusedAgrees(d, target, a);
    } else {
      if key in d.conns {
        RemovedAgrees(d, key, DroppedStale(key), d.live);
      }
      var d1 := WithoutStale(d, key);
      var d2 := WithRoom(cfg, d1, victim, a.stopped);
      if d2 != d1 {
        RemovedAgrees(d1, victim, Evicted(victim), d2.live);
      }
      StartAgrees(cfg, d2, target, a);
    }
  }

  lemma StartAgrees(cfg: Config, d: DaemonState, target: HostTarget, a: EnsureAnswers)
    requires Agrees(d)
    ensures Agrees(StartNew(cfg, d, target, a).0)
  {
    hide HostTarget.Key, HostTarget.Display;
    if a.pathError.None? {
      match a.start {
        case Started(ms) =>
          var socket := cfg.pathOf(target.Key());
          OpenedAgrees(d.(live := d.live + {socket}), target, socket, None, Some(ms), a.at, a.metricsAt);
        case StartFailed(reason) =>
          FailureAgrees(d, target, reason, a.metricsAt);
        case _ =>
      }
    }
  }

  /** Over every run from an empty store, whatever the world answers. */
  lemma {:induction false} TraceTableAndMetricsAgree(cfg: Config, m: MetricsState, ops: seq<Op>)
    requires m.perHost == map[]
    ensures Agrees(RunOps(cfg, m, ops).daemon)
  {
    hide HostTarget.Key, HostTarget.Display;
    if ops != [] {
      var before, op := ops[..|ops| - 1], ops[|ops| - 1];
      TraceTableAndMetricsAgree(cfg, m, before);
      var d := RunOps(cfg, m, before).daemon;
      match op {
        case EnsureConnection(target, victim, a) =>
          EnsureAgrees(cfg, d, target, victim, a);
        case RegisterExternalMaster(target, pid, at, metricsAt) =>
          OpenedAgrees(d, target, cfg.pathOf(target.Key()), pid, None, at, metricsAt);
        case CloseConnection(key, stopped) =>
          if key in d.conns {
            var closed := Emitted(ConnectionClosed(key, d.conns[key].target.Display()));
            RemovedAgrees(d, key, closed, Close(d, key, stopped).0.live);
          }
        case HealthPass(order, answers) =>
          CheckKeysAgrees(cfg, d, order, answers);
        case StartInteractive(_) =>
        case MasterDies(_) =>
      }
    }
  }

  // ---------------------------------------------------------------- failures

  function FailedCount(history: seq<Mark>): nat {
    if history == [] then 0
    else
      var mark := history[|history| - 1];
      FailedCount(history[..|history| - 1]) + if mark.Emitted? && mark.event.AuthenticationFailed? then 1 else 0
  }

  /** The failures counted over all hosts are the failure events. */
  ghost predicate FailuresAgree(d: DaemonState) {
    SumOverHosts(d.metrics.perHost, Failures) == FailedCount(d.history)
  }

  lemma FailedAppended(history: seq<Mark>, mark: Mark)
    ensures FailedCount(history + [mark]) ==
            FailedCount(history) + if mark.Emitted? && mark.event.AuthenticationFailed? then 1 else 0
  {
    assert (history + [mark])[..|history + [mark]| - 1] == history;
  }

  lemma ConnectionKeepsFailures(m: map<string, HostStat>, key: string, hostLabel: string, reused: bool, ms: nat)
    ensures SumOverHosts(HostsWithConnection(m, key, hostLabel, reused, ms), Failures) == SumOverHosts(m, Failures)
  {
    var m' := HostsWithConnection(m, key, hostLabel, reused, ms);
    assert m' == m[key := m'[key]];
    SumUpdated(m, Failures, key, m'[key]);
  }

  lemma FailureAddsOne(m: map<string, HostStat>, key: string, hostLabel: string)
    ensures SumOverHosts(HostsWithFailure(m, key, hostLabel), Failures) == SumOverHosts(m, Failures) + 1
  {
    var m' := HostsWithFailure(m, key, hostLabel);
    assert m' == m[key := m'[key]];
    SumUpdated(m, Failures, key, m'[key]);
  }

  lemma OpenedFailures(d: DaemonState, target: HostTarget, socket: Path, pid: Option<nat>, latencyMs: Option<nat>,
                       at: nat, metricsAt: nat)
    requires FailuresAgree(d)
    ensures FailuresAgree(Opened(d, target, socket, pid, latencyMs, at, metricsAt))
  {
    hide HostTarget.Key, HostTarget.Display, SumOverHosts, HostsWithConnection;
    var key, host := target.Key(), target.Display();
    ConnectionKeepsFailures(d.metrics.perHost, key, host, false, if latencyMs.Some? then latencyMs.value else 0);
    FailedAppended(d.history, Emitted(ConnectionOpened(key, host)));
  }

  lemma StartFailures(cfg: Config, d: DaemonState, target: HostTarget, a: EnsureAnswers)
    requires FailuresAgree(d)
    ensures FailuresAgree(StartNew(cfg, d, target, a).0)
  {
    hide HostTarget.Key, HostTarget.Display, SumOverHosts, HostsWithConnection, HostsWithFailure;
    var key, host := target.Key(), target.Display();
    if a.pathError.None? {
      match a.start {
        case Started(ms) =>
          var socket := cfg.pathOf(key);
          OpenedFailures(d.(live := d.live + {socket}), target, socket, None, Some(ms), a.at, a.metricsAt);
        case StartFailed(reason) =>
          FailureAddsOne(d.metrics.perHost, key, host);
          FailedAppended(d.history, Emitted(AuthenticationFailed(host, reason)));
        case _ =>
      }
    }
  }

  lemma EnsureFailures(cfg: Config, d: DaemonState, target: HostTarget, victim: string, a: EnsureAnswers)
    requires FailuresAgree(d)
    ensures FailuresAgree(Ensure(cfg, d, target, victim, a).0)
  {
    hide HostTarget.Key, HostTarget.Display, SumOverHosts, HostsWithConnection, StartNew;
    var key, host := target.Key(), target.Display();
    if key in d.conns && a.alive {
      ConnectionKeepsFailures(d.metrics.perHost, key, host, true, a.probeMs);
      FailedAppended(d.history, Emitted(ConnectionReused(key, host)));
    } else {
      FailedAppended(d.history, DroppedStale(key));
      var d1 := WithoutStale(d, key);
      FailedAppended(d1.history, Evicted(victim));
      StartFailures(cfg, WithRoom(cfg, d1, victim, a.stopped), target, a);
    }
  }

  lemma CheckOneFailures(cfg: Config, d: DaemonState, key: string, a: HealthAnswer)
    requires FailuresAgree(d)
    ensures FailuresAgree(CheckOne(cfg, d, key, a))
  {
    hide HostTarget.Display, SumOverHosts;
    if key in d.conns {
      var host := d.conns[key].target.Display();
      FailedAppended(d.history, Emitted(Reconnected(key, host, 1)));
      FailedAppended(d.history, Emitted(ConnectionClosed(key, host)));
      assert CheckOne(cfg, d, key, a).metrics.perHost == d.metrics.perHost;
    }
  }

  lemma {:induction false} CheckKeysFailures(cfg: Config, d: DaemonState, order: seq<string>,
                                             answers: string -> HealthAnswer)
    requires FailuresAgree(d)
    ensures FailuresAgree(CheckKeys(cfg, d, order, answers))
  {
    hide CheckOne, FailuresAgree;
    if order != [] {
      var n := |order| - 1;
      CheckKeysFailures(cfg, d, order[..n], answers);
      CheckOneFailures(cfg, CheckKeys(cfg, d, order[..n], answers), order[n], answers(order[n]));
    }
  }

  lemma CloseFailures(d: DaemonState, key: string, stopped: bool)
    requires FailuresAgree(d)
    ensures FailuresAgree(Close(d, key, stopped).0)
  {
    hide HostTarget.Display, SumOverHosts;
    if key in d.conns {
      FailedAppended(d.history, Emitted(ConnectionClosed(key, d.conns[key].target.Display())));
    }
  }

  lemma LiveFailures(d: DaemonState, live: set<Path>)
    requires FailuresAgree(d)
    ensures FailuresAgree(d.(live := live))
  {
  }

  lemma NoneFailedYet(m: MetricsState)
    requires m.perHost == map[]
    ensures FailuresAgree(Started(m).daemon)
  {
  }

  /** Over every run from an empty store the per-host failures add up to the failure events. */
  lemma {:induction false} FailuresMatchTrace(cfg: Config, m: MetricsState, ops: seq<Op>)
    requires m.perHost == map[]
    ensures FailuresAgree(RunOps(cfg, m, ops).daemon)
  {
    hide HostTarget.Key, HostTarget.Display, Ensure, CheckKeys, Opened, Close, SumOverHosts, FailuresAgree;
    NoneFailedYet(m);
    if ops != [] {
      var before, op := ops[..|ops| - 1], ops[|ops| - 1];
      FailuresMatchTrace(cfg, m, before);
      var d := RunOps(cfg, m, before).daemon;
      match op {
        case EnsureConnection(target, victim, a) =>
          EnsureFailures(cfg, d, target, victim, a);
        case RegisterExternalMaster(target, pid, at, metricsAt) =>
          OpenedFailures(d, target, cfg.pathOf(target.Key()), pid, None, at, metricsAt);
        case CloseConnection(key, stopped) =>
          CloseFailures(d, key, stopped);
        case HealthPass(order, answers) =>
          CheckKeysFailures(cfg, d, order, answers);
        case StartInteractive(target) =>
          LiveFailures(d, d.live + {cfg.pathOf(target.Key())});
        case MasterDies(socket) =>
          LiveFailures(d, d.live - {socket});
      }
    }
  }

  // ---------------------------------------------------------------- replies

  /** After a ready reply the entry of the target is healthy, just used, and the one the reply names. */
  lemma ReadyReplyMeans(cfg: Config, d: DaemonState, target: HostTarget, victim: string, a: EnsureAnswers)
    requires Ensure(cfg, d, target, victim, a).1.ConnectionReady?
    ensures var (d', reply) := Ensure(cfg, d, target, victim, a);
            var key := target.Key();
            && key in d'.conns
            && d'.conns[key].controlSocket == reply.controlSocket
            && d'.conns[key].healthy && d'.conns[key].lastUsed == a.at
            && d'.conns[key].lastLatencyMs == Some(reply.latencyMs)
            && (reply.reused <==> key in d.conns && a.alive)
            && d'.conns[key].reusedCount == (if reply.reused then d.conns[key].reusedCount + 1 else 0)
            && (forall k | k in d'.conns && k != key :: k in d.conns && d'.conns[k] == d.conns[k])
  {
    hide HostTarget.Key, HostTarget.Display, ConnectionRecorded;
  }

  /** The requests name destinations that some text denotes. */
  ghost predicate Typed(target: HostTarget) {
    exists raw :: Parse(raw) == Ok(target)
  }

  ghost predicate TypedOp(op: Op) {
    match op
    case EnsureConnection(target, _, _) => Typed(target)
    case RegisterExternalMaster(target, _, _, _) => Typed(target)
    case _ => true
  }

  ghost predicate TypedTable(m: Table) {
    forall k | k in m :: Typed(m[k].target)
  }

  lemma StartTyped(cfg: Config, d: DaemonState, target: HostTarget, a: EnsureAnswers)
    requires TypedTable(d.conns) && Typed(target)
    ensures TypedTable(StartNew(cfg, d, target, a).0.conns)
  {
    hide HostTarget.Key, HostTarget.Display, Typed, ConnectionRecorded;
  }

  lemma FewerTyped(m: Table, m': Table)
    requires TypedTable(m) && forall k | k in m' :: k in m && m'[k].target == m[k].target
    ensures TypedTable(m')
  {
  }

  lemma EnsureTyped(cfg: Config, d: DaemonState, target: HostTarget, victim: string, a: EnsureAnswers)
    requires TypedTable(d.conns) && Typed(target)
    ensures TypedTable(Ensure(cfg, d, target, victim, a).0.conns)
  {
    hide HostTarget.Key, HostTarget.Display, TypedTable, StartNew;
    var key := target.Key();
    if key in d.conns && a.alive {
      FewerTyped(d.conns, Reused(d, target, a).conns);
    } else {
      var d2 := WithRoom(cfg, WithoutStale(d, key), victim, a.stopped);
      FewerTyped(d.conns, d2.conns);
      StartTyped(cfg, d2, target, a);
    }
  }

  lemma {:induction false} CheckKeysTyped(cfg: Config, d: DaemonState, order: seq<string>,
                                          answers: string -> HealthAnswer)
    requires TypedTable(d.conns)
    ensures TypedTable(CheckKeys(cfg, d, order, answers).conns)
  {
    hide HostTarget.Display, Typed;
    if order != [] {
      CheckKeysTyped(cfg, d, order[..|order| - 1], answers);
    }
  }

  lemma {:induction false} RunTyped(cfg: Config, m: MetricsState, ops: seq<Op>)
    requires forall i | 0 <= i < |ops| :: TypedOp(ops[i])
    ensures TypedTable(RunOps(cfg, m, ops).daemon.conns)
  {
    hide HostTarget.Key, HostTarget.Display, Typed, Ensure, CheckKeys;
    if ops != [] {
      var before, op := ops[..|ops| - 1], ops[|ops| - 1];
      RunTyped(cfg, m, before);
      var d := RunOps(cfg, m, before).daemon;
      assert TypedOp(op);
      match op {
        case EnsureConnection(target, victim, a) => EnsureTyped(cfg, d, target, victim, a);
        case HealthPass(order, answers) => CheckKeysTyped(cfg, d, order, answers);
        case _ =>
      }
    }
  }

  /** The table never serves one typed destination with the master of another. */
  lemma DestinationsNeverMixed(cfg: Config, m: MetricsState, ops: seq<Op>, target: HostTarget)
    requires forall i | 0 <= i < |ops| :: TypedOp(ops[i])
    requires Typed(target)
    ensures var conns := RunOps(cfg, m, ops).daemon.conns;
            target.Key() in conns ==> conns[target.Key()].target == target
  {
    hide HostTarget.Key, HostTarget.Display;
    RunTyped(cfg, m, ops);
    SocketsStayCanonical(cfg, m, ops);
    var conns := RunOps(cfg, m, ops).daemon.conns;
    if target.Key() in conns {
      DT.KeyInjective(target, conns[target.Key()].target);
    }
  }

  /** A ready or hand-over reply always names the socket path of the requested target. */
  lemma RepliesNameCanonicalSocket(cfg: Config, m: MetricsState, ops: seq<Op>, target: HostTarget, victim: string,
                                   a: EnsureAnswers)
    ensures var reply := Ensure(cfg, RunOps(cfg, m, ops).daemon, target, victim, a).1;
            reply.ConnectionReady? || reply.NeedsInteractive? ==> reply.controlSocket == cfg.pathOf(target.Key())
  {
    SocketsStayCanonical(cfg, m, ops);
    EnsureCanonical(cfg, RunOps(cfg, m, ops).daemon, target, victim, a);
  }
}
