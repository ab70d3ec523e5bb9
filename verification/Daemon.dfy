/**
 The daemon's operations on the connection table, the metrics and the event
 trace. What `ssh` answers, the clock and the outcome of file writes are inputs.
 */
module Daemon {
  import opened Outcomes
  import opened Orders
  import opened Destination
  import opened Connections
  import opened Metrics

  /** `pathOf` maps a key to its control socket path. */
  datatype Config = Config(maxConnections: nat, reconnect: bool, pathOf: string -> Path)

  /** The number of entries the limit stands for: 0 acts as 1. */
  function Capacity(cfg: Config): nat {
    if cfg.maxConnections == 0 then 1 else cfg.maxConnections
  }

  /** Every entry is stored under its own target's key, with the socket path of that key. */
  ghost predicate TableCanonical(cfg: Config, m: Table) {
    forall k | k in m :: m[k].target.Key() == k && m[k].controlSocket == cfg.pathOf(k)
  }

  /** The events dispatched to plugins by the modelled operations. */
  datatype Event =
    | ConnectionOpened(key: string, host: string)
    | ConnectionClosed(key: string, host: string)
    | ConnectionReused(key: string, host: string)
    | AuthenticationFailed(host: string, reason: string)
    | Reconnected(key: string, host: string, attempt: nat)

  /** One entry of the history: a dispatched event, or a removal that dispatches none. */
  datatype Mark = Emitted(event: Event) | Evicted(key: string) | DroppedStale(key: string)

  /** What `start_master_noninteractive`, run in its own task, came back with. */
  datatype StartResult =
    | Started(elapsedMs: nat)
    | NeedsInteractiveAuth
    | StartFailed(reason: string)
    | StartAborted(joinError: string)

  datatype Response =
    | ConnectionReady(controlSocket: Path, reused: bool, latencyMs: nat)
    | NeedsInteractive(controlSocket: Path)
    | Ack
    | Error(message: string)

  /** `live` are the control sockets on which a master started during the run answers. */
  datatype DaemonState = DaemonState(conns: Table, metrics: MetricsState, history: seq<Mark>, live: set<Path>)

  /** The world's part of one `EnsureConnection`. */
  datatype EnsureAnswers = EnsureAnswers(
    alive: bool,
    probeMs: nat,
    stopped: bool,
    pathError: Option<string>,
    start: StartResult,
    at: nat,
    metricsAt: nat,
    write: WriteOutcome)

  function AfterStop(live: set<Path>, socket: Path, stopped: bool): set<Path> {
    if stopped then live - {socket} else live
  }

  /** Removes the victim, stops its master, tells nobody. */
  function EvictionOf(d: DaemonState, victim: string, stopped: bool): DaemonState {
    if d.conns == map[] || victim !in d.conns then d
    else d.(conns := d.conns - {victim},
            live := AfterStop(d.live, d.conns[victim].controlSocket, stopped),
            history := d.history + [Evicted(victim)])
  }

  /** The state in which `maxConnections` is checked: a dead entry of the key is gone. */
  function WithoutStale(d: DaemonState, key: string): DaemonState {
    if key in d.conns
    then d.(conns := d.conns - {key}, history := d.history + [DroppedStale(key)])
    else d
  }

  function WithRoom(cfg: Config, d: DaemonState, victim: string, stopped: bool): DaemonState {
    if |d.conns| >= cfg.maxConnections then EvictionOf(d, victim, stopped) else d
  }

  function Opened(d: DaemonState, target: HostTarget, socket: Path, pid: Option<nat>, latencyMs: Option<nat>,
                  at: nat, metricsAt: nat): DaemonState
  {
    var key, host := target.Key(), target.Display();
    var recordedMs := if latencyMs.Some? then latencyMs.value else 0;
    d.(conns := d.conns[key := NewConnection(target, socket, pid, latencyMs, at)],
       metrics := ConnectionRecorded(d.metrics, metricsAt, key, host, false, recordedMs),
       history := d.history + [Emitted(ConnectionOpened(key, host))])
  }

  /** Starts a master for the target; only a successful start touches the table. */
  function StartNew(cfg: Config, d: DaemonState, target: HostTarget, a: EnsureAnswers): (DaemonState, Response) {
    var key := target.Key();
    var socket := cfg.pathOf(key);
    if a.pathError.Some? then (d, Error("could not prepare control socket path: " + a.pathError.value))
    else
      match a.start
      case Started(ms) =>
        (Opened(d.(live := d.live + {socket}), target, socket, None, Some(ms), a.at, a.metricsAt),
         ConnectionReady(socket, false, ms))
      case NeedsInteractiveAuth => (d, NeedsInteractive(socket))
      case StartFailed(reason) =>
        (d.(metrics := FailureRecorded(d.metrics, a.metricsAt, key, target.Display()),
            history := d.history + [Emitted(AuthenticationFailed(target.Display(), reason))]),
         Error(reason))
      case StartAborted(joinError) => (d, Error("internal error: " + joinError))
  }

  function Reused(d: DaemonState, target: HostTarget, a: EnsureAnswers): DaemonState {
    var key, host := target.Key(), target.Display();
    d.(conns := WithReuse(d.conns, key, a.probeMs, a.at),
       metrics := ConnectionRecorded(d.metrics, a.metricsAt, key, host, true, a.probeMs),
       history := d.history + [Emitted(ConnectionReused(key, host))])
  }

  /** One whole `EnsureConnection`, given the eviction victim. */
  function Ensure(cfg: Config, d: DaemonState, target: HostTarget, victim: string, a: EnsureAnswers)
    : (DaemonState, Response)
  {
    var key := target.Key();
    if key in d.conns && a.alive
    then (Reused(d, target, a), ConnectionReady(d.conns[key].controlSocket, true, a.probeMs))
    else StartNew(cfg, WithRoom(cfg, WithoutStale(d, key), victim, a.stopped), target, a)
  }

  ghost predicate VictimIsLru(m: Table, victim: string) {
    m != map[] ==> IsLru(m, victim)
  }

  /** If the operation evicts, it evicts a least recently used entry. */
  ghost predicate EvictsLru(cfg: Config, d: DaemonState, target: HostTarget, victim: string, a: EnsureAnswers) {
    var key := target.Key();
    !(key in d.conns && a.alive) ==>
      var d1 := WithoutStale(d, key);
      |d1.conns| >= cfg.maxConnections ==> VictimIsLru(d1.conns, victim)
  }

  function Register(d: DaemonState, target: HostTarget, socket: Path, pid: Option<nat>, at: nat, metricsAt: nat)
    : DaemonState
  {
    Opened(d, target, socket, pid, None, at, metricsAt)
  }

  function Close(d: DaemonState, key: string, stopped: bool): (DaemonState, Response) {
    if key in d.conns then
      var conn := d.conns[key];
      (d.(conns := d.conns - {key},
          live := AfterStop(d.live, conn.controlSocket, stopped),
          history := d.history + [Emitted(ConnectionClosed(key, conn.target.Display()))]),
       Ack)
    else (d, Error("no such managed connection"))
  }

  /** The world's part of checking one key in a health pass. */
  datatype HealthAnswer = HealthAnswer(alive: bool, start: StartResult, at: nat, metricsAt: nat, write: WriteOutcome)

  function CheckOne(cfg: Config, d: DaemonState, key: string, a: HealthAnswer): DaemonState {
    if key !in d.conns then d
    else
      var conn := d.conns[key];
      var host := conn.target.Display();
      if a.alive then d.(conns := WithHealth(d.conns, key, true))
      else if cfg.reconnect && a.start.Started? then
        d.(conns := WithTouch(WithHealth(d.conns, key, true), key, a.at),
           metrics := ReconnectRecorded(d.metrics, a.metricsAt),
           history := d.history + [Emitted(Reconnected(key, host, 1))],
           live := d.live + {conn.controlSocket})
      else
        d.(conns := d.conns - {key}, history := d.history + [Emitted(ConnectionClosed(key, host))])
  }

  /** A health pass over the keys in the given order. */
  function CheckKeys(cfg: Config, d: DaemonState, order: seq<string>, answers: string -> HealthAnswer): DaemonState {
    if order == [] then d
    else
      var n := |order| - 1;
      CheckOne(cfg, CheckKeys(cfg, d, order[..n], answers), order[n], answers(order[n]))
  }

  /** The start of a master was tried and failed. */
  predicate FailedStart(response: Response, a: EnsureAnswers) {
    response.Error? && a.pathError.None? && a.start.StartFailed?
  }

  /** Whether the reply stands for a call on the metrics store, which writes the file. */
  predicate Recorded(response: Response, a: EnsureAnswers) {
    response.ConnectionReady? || FailedStart(response, a)
  }

  predicate Revives(cfg: Config, m: Table, key: string, a: HealthAnswer) {
    key in m && !a.alive && cfg.reconnect && a.start.Started?
  }

  /** The metrics file after a health pass: written once for each revived key. */
  function FileAfterPass(cfg: Config, d: DaemonState, file: Option<MetricsState>, order: seq<string>,
                         answers: string -> HealthAnswer): Option<MetricsState>
  {
    if order == [] then file
    else
      var n := |order| - 1;
      var key, before := order[n], CheckKeys(cfg, d, order[..n], answers);
      var earlier := FileAfterPass(cfg, d, file, order[..n], answers);
      if Revives(cfg, before.conns, key, answers(key))
      then FileAfter(earlier, CheckOne(cfg, before, key, answers(key)).metrics, answers(key).write)
      else earlier
  }

  class DaemonServer {
    const config: Config
    const connections: ConnectionManager
    const metrics: MetricsStore
    ghost var history: seq<Mark>
    ghost var live: set<Path>

    ghost function State(): DaemonState
      reads this, connections, metrics
    {
      DaemonState(connections.connections, metrics.State(), history, live)
    }

    constructor (config: Config, onDisk: Option<MetricsState>, now: nat, write: WriteOutcome)
      ensures this.config == config
      ensures fresh(connections) && fresh(metrics)
      ensures State() == DaemonState(map[], Loaded(onDisk, now), [], {})
      ensures metrics.file == FileAfter(onDisk, Loaded(onDisk, now), write)
    {
      this.config := config;
      connections := new ConnectionManager();
      metrics := new MetricsStore.Load(onDisk, now, write);
      history, live := [], {};
    }

    method EvictLru(stopped: bool) returns (ghost victim: string)
      modifies this, connections
      ensures VictimIsLru(old(connections.connections), victim)
      ensures State() == EvictionOf(old(State()), victim, stopped)
    {
      var key := connections.LeastRecentlyUsed();
      if key.None? {
        victim := "";
        return;
      }
      victim := key.value;
      var conn := connections.Remove(key.value);
      if conn.Some? {
        live := AfterStop(live, conn.value.controlSocket, stopped);
        history := history + [Evicted(key.value)];
      }
    }

    method EnsureConnection(target: HostTarget, a: EnsureAnswers) returns (response: Response, ghost victim: string)
      modifies this, connections, metrics
      ensures EvictsLru(config, old(State()), target, victim, a)
      ensures (State(), response) == Ensure(config, old(State()), target, victim, a)
      ensures metrics.file ==
              if Recorded(response, a) then FileAfter(old(metrics.file), metrics.State(), a.write)
              else old(metrics.file)
    {
      var key := target.Key();
      victim := "";
      var existing := connections.SocketFor(key);
      if existing.Some? {
        if a.alive {
          connections.MarkReused(key, a.probeMs, a.at);
          metrics.RecordConnection(a.metricsAt, key, target.Display(), true, a.probeMs, a.write);
          history := history + [Emitted(ConnectionReused(key, target.Display()))];
          return ConnectionReady(existing.value, true, a.probeMs), victim;
        }
        var _ := connections.Remove(key);
        history := history + [DroppedStale(key)];
      }
      ghost var checked := State();
      assert checked == WithoutStale(old(State()), key);

      if connections.Len() >= config.maxConnections {
        victim := EvictLru(a.stopped);
      }
      assert State() == WithRoom(config, checked, victim, a.stopped);

      response := StartAndInsert(target, a);
    }

    /** The second half of `EnsureConnection`: socket path, start, insertion. */
    method StartAndInsert(target: HostTarget, a: EnsureAnswers) returns (response: Response)
      modifies this, connections, metrics
      ensures (State(), response) == StartNew(config, old(State()), target, a)
      ensures metrics.file ==
              if Recorded(response, a) then FileAfter(old(metrics.file), metrics.State(), a.write)
              else old(metrics.file)
    {
      var key := target.Key();
      if a.pathError.Some? {
        return Error("could not prepare control socket path: " + a.pathError.value);
      }
      var socketPath := config.pathOf(key);
      match a.start {
        case Started(elapsedMs) =>
          live := live + {socketPath};
          connections.InsertNew(key, target, socketPath, None, Some(elapsedMs), a.at);
          metrics.RecordConnection(a.metricsAt, key, target.Display(), false, elapsedMs, a.write);
          history := history + [Emitted(ConnectionOpened(key, target.Display()))];
          response := ConnectionReady(socketPath, false, elapsedMs);
        case NeedsInteractiveAuth =>
          response := NeedsInteractive(socketPath);
        case StartFailed(reason) =>
          metrics.RecordFailure(a.metricsAt, key, target.Display(), a.write);
          history := history + [Emitted(AuthenticationFailed(target.Display(), reason))];
          response := Error(reason);
        case StartAborted(joinError) =>
          response := Error("internal error: " + joinError);
      }
    }

    method RegisterExternalMaster(target: HostTarget, controlSocket: Path, pid: Option<nat>,
                                  at: nat, metricsAt: nat, write: WriteOutcome) returns (response: Response)
      modifies this, connections, metrics
      ensures State() == Register(old(State()), target, controlSocket, pid, at, metricsAt)
      ensures metrics.file == FileAfter(old(metrics.file), metrics.State(), write)
      ensures response == Ack
    {
      var key := target.Key();
      connections.InsertNew(key, target, controlSocket, pid, None, at);
      metrics.RecordConnection(metricsAt, key, target.Display(), false, 0, write);
      history := history + [Emitted(ConnectionOpened(key, target.Display()))];
      response := Ack;
    }

    method CloseConnection(key: string, stopped: bool) returns (response: Response)
      modifies this, connections
      ensures (State(), response) == Close(old(State()), key, stopped)
    {
      var conn := connections.Remove(key);
      if conn.Some? {
        live := AfterStop(live, conn.value.controlSocket, stopped);
        history := history + [Emitted(ConnectionClosed(key, conn.value.target.Display()))];
        response := Ack;
      } else {
        assert connections.connections == old(connections.connections);
        response := Error("no such managed connection");
      }
    }

    method CheckKey(key: string, a: HealthAnswer)
      modifies this, connections, metrics
      ensures State() == CheckOne(config, old(State()), key, a)
      ensures metrics.file ==
              if Revives(config, old(connections.connections), key, a)
              then FileAfter(old(metrics.file), metrics.State(), a.write)
              else old(metrics.file)
    {
      var clone := connections.GetClone(key);
      if clone.None? {
        return;
      }
      var conn := clone.value;
      if a.alive {
        connections.MarkHealthy(key, true);
        return;
      }
      if config.reconnect {
        if a.start.Started? {
          live := live + {conn.controlSocket};
          connections.MarkHealthy(key, true);
          connections.Touch(key, a.at);
          metrics.RecordReconnect(a.metricsAt, a.write);
          history := history + [Emitted(Reconnected(key, conn.target.Display(), 1))];
          return;
        }
      }
      var _ := connections.Remove(key);
      history := history + [Emitted(ConnectionClosed(key, conn.target.Display()))];
    }

    method CheckAll(answers: string -> HealthAnswer) returns (order: seq<string>)
      modifies this, connections, metrics
      ensures Enumerates(order, old(connections.connections))
      ensures State() == CheckKeys(config, old(State()), order, answers)
      ensures metrics.file == FileAfterPass(config, old(State()), old(metrics.file), order, answers)
    {
      order := connections.AllKeys();
      for i := 0 to |order|
        invariant State() == CheckKeys(config, old(State()), order[..i], answers)
        invariant metrics.file == FileAfterPass(config, old(State()), old(metrics.file), order[..i], answers)
      {
        CheckKey(order[i], answers(order[i]));
        assert order[..i + 1][..i] == order[..i];
      }
      assert order[..|order|] == order;
    }
  }
}
