/**
 What the whole operations do, read off requests and replies: the reply to a request, the
 entry it leaves, the events it dispatches and the calls it makes on the metrics store.
 */
module Ledger {
  import opened Outcomes
  import opened Orders
  import opened Destination
  import opened Connections
  import opened Metrics
  import opened MetricsTheorems
  import opened Daemon
  import opened Lifecycle
  import opened Health

  // ---------------------------------------------------------------- replies

  /** The reply to `EnsureConnection`, case by case. */
  lemma EnsureReplies(cfg: Config, d: DaemonState, target: HostTarget, victim: string, a: EnsureAnswers)
    ensures var key, reply := target.Key(), Ensure(cfg, d, target, victim, a).1;
            if key in d.conns && a.alive then reply == ConnectionReady(d.conns[key].controlSocket, true, a.probeMs)
            else if a.pathError.Some? then
              reply == Error("could not prepare control socket path: " + a.pathError.value)
            else match a.start
              case Started(ms) => reply == ConnectionReady(cfg.pathOf(key), false, ms)
              case NeedsInteractiveAuth => reply == NeedsInteractive(cfg.pathOf(key))
              case StartFailed(reason) => reply == Error(reason)
              case StartAborted(joinError) => reply == Error("internal error: " + joinError)
  {
    hide HostTarget.Key, HostTarget.Display, ConnectionRecorded, FailureRecorded;
  }

  /** A close request is acknowledged exactly when the key is tracked. */
  lemma CloseAcksIff(d: DaemonState, key: string, stopped: bool)
    ensures var reply := Close(d, key, stopped).1;
            && (reply == Ack <==> key in d.conns)
            && (key !in d.conns ==> reply == Error("no such managed connection") && Close(d, key, stopped).0 == d)
  {
  }

  // ---------------------------------------------------------------- table and masters

  /** The table when room is checked: without a dead entry of the requested key. */
  function CheckedAgainstLimit(m: Table, key: string): Table {
    m - {key}
  }

  predicate Evicts(cfg: Config, m: Table, key: string, victim: string) {
    |CheckedAgainstLimit(m, key)| >= cfg.maxConnections && victim in CheckedAgainstLimit(m, key)
  }

  /** The table and the masters when the start begins. */
  function TableAtStart(cfg: Config, m: Table, key: string, victim: string): Table {
    if Evicts(cfg, m, key, victim) then CheckedAgainstLimit(m, key) - {victim} else CheckedAgainstLimit(m, key)
  }

  function LiveAtStart(cfg: Config, d: DaemonState, key: string, victim: string, stopped: bool): set<Path> {
    if Evicts(cfg, d.conns, key, victim) && stopped then d.live - {d.conns[victim].controlSocket} else d.live
  }

  lemma StaleGone(d: DaemonState, key: string)
    ensures WithoutStale(d, key) ==
            d.(conns := CheckedAgainstLimit(d.conns, key),
               history := d.history + if key in d.conns then [DroppedStale(key)] else [])
  {
    if key !in d.conns {
      assert d.conns - {key} == d.conns;
    }
  }

  lemma RoomMade(cfg: Config, d: DaemonState, victim: string, stopped: bool)
    ensures var evicts := |d.conns| >= cfg.maxConnections && victim in d.conns;
            WithRoom(cfg, d, victim, stopped) ==
            if evicts
            then d.(conns := d.conns - {victim},
                    live := if stopped then d.live - {d.conns[victim].controlSocket} else d.live,
                    history := d.history + [Evicted(victim)])
            else d
  {
  }

  lemma AtStart(cfg: Config, d: DaemonState, key: string, victim: string, stopped: bool)
    ensures var d2 := WithRoom(cfg, WithoutStale(d, key), victim, stopped);
            && d2.conns == TableAtStart(cfg, d.conns, key, victim)
            && d2.live == LiveAtStart(cfg, d, key, victim, stopped)
            && d2.metrics == d.metrics
            && d2.history ==
               d.history + (if key in d.conns then [DroppedStale(key)] else []) +
               (if Evicts(cfg, d.conns, key, victim) then [Evicted(victim)] else [])
  {
    hide WithoutStale, WithRoom;
    StaleGone(d, key);
    RoomMade(cfg, WithoutStale(d, key), victim, stopped);
  }

  /**
   The whole table and the live masters after a request: a reuse changes four fields of its
   entry and nothing else; any other request drops the dead entry and evicts if there is no
   room, and a successful start then enters a fresh entry under the key.
   */
  lemma EnsureLeaves(cfg: Config, d: DaemonState, target: HostTarget, victim: string, a: EnsureAnswers)
    ensures var key, (d', reply) := target.Key(), Ensure(cfg, d, target, victim, a);
            if reply.ConnectionReady? && reply.reused then
              && key in d.conns && d'.live == d.live
              && d'.conns == d.conns[key := d.conns[key].(reusedCount := d.conns[key].reusedCount + 1,
                                                          lastUsed := a.at, healthy := true,
                                                          lastLatencyMs := Some(reply.latencyMs))]
            else
              var conns := TableAtStart(cfg, d.conns, key, victim);
              var live := LiveAtStart(cfg, d, key, victim, a.stopped);
              if reply.ConnectionReady? then
                var entry := ManagedConnection(target, reply.controlSocket, None, a.at, a.at, 0, true,
                                               Some(reply.latencyMs));
                d'.conns == conns[key := entry] && d'.live == live + {reply.controlSocket}
              else
                d'.conns == conns && d'.live == live
  {
    hide HostTarget.Key, HostTarget.Display, ConnectionRecorded, FailureRecorded, WithRoom, WithoutStale, TableAtStart;
    AtStart(cfg, d, target.Key(), victim, a.stopped);
  }

  /** A hand-over enters a fresh entry with the given socket and process, never used before and without latency. */
  lemma RegisterLeaves(d: DaemonState, target: HostTarget, socket: Path, pid: Option<nat>, at: nat, metricsAt: nat)
    ensures var d' := Register(d, target, socket, pid, at, metricsAt);
            && d'.conns == d.conns[target.Key() := ManagedConnection(target, socket, pid, at, at, 0, true, None)]
            && d'.live == d.live
            && d'.history == d.history + [Emitted(ConnectionOpened(target.Key(), target.Display()))]
  {
    hide HostTarget.Key, HostTarget.Display, ConnectionRecorded;
  }

  // ---------------------------------------------------------------- events

  /** What the reply announces to plugins. */
  function Announced(target: HostTarget, reply: Response, a: EnsureAnswers): seq<Mark> {
    if reply.ConnectionReady? && reply.reused then [Emitted(ConnectionReused(target.Key(), target.Display()))]
    else if reply.ConnectionReady? then [Emitted(ConnectionOpened(target.Key(), target.Display()))]
    else if FailedStart(reply, a) then [Emitted(AuthenticationFailed(target.Display(), reply.message))]
    else []
  }

  /** Silent removals, the stale entry before the victim, and then what the reply announces. */
  lemma EnsureMarks(cfg: Config, d: DaemonState, target: HostTarget, victim: string, a: EnsureAnswers)
    ensures var key, (d', reply) := target.Key(), Ensure(cfg, d, target, victim, a);
            if reply.ConnectionReady? && reply.reused then d'.history == d.history + Announced(target, reply, a)
            else
              d'.history ==
              d.history + (if key in d.conns then [DroppedStale(key)] else []) +
              (if Evicts(cfg, d.conns, key, victim) then [Evicted(victim)] else []) + Announced(target, reply, a)
  {
    hide HostTarget.Key, HostTarget.Display, ConnectionRecorded, FailureRecorded, WithRoom, WithoutStale, Evicts;
    AtStart(cfg, d, target.Key(), victim, a.stopped);
  }

  // ---------------------------------------------------------------- metrics

  /** The calls on the store that a request stands for, read off its reply. */
  function CallsOfReply(target: HostTarget, reply: Response, a: EnsureAnswers): seq<LogEvent> {
    if reply.ConnectionReady? then
      [Connection(a.metricsAt, target.Key(), target.Display(), reply.reused, reply.latencyMs)]
    else if FailedStart(reply, a) then [Failure(a.metricsAt, target.Key(), target.Display())]
    else []
  }

  /** The calls on the store that an operation stands for. */
  function CallsOf(cfg: Config, d: DaemonState, op: Op): seq<LogEvent> {
    match op
    case EnsureConnection(target, victim, a) => CallsOfReply(target, Ensure(cfg, d, target, victim, a).1, a)
    case RegisterExternalMaster(target, _, _, metricsAt) =>
      [Connection(metricsAt, target.Key(), target.Display(), false, 0)]
    case HealthPass(order, answers) => PassCalls(cfg, d.conns, order, answers)
    case _ => []
  }

  function CallsOfRun(cfg: Config, m: MetricsState, ops: seq<Op>): seq<LogEvent> {
    if ops == [] then []
    else
      var before, op := ops[..|ops| - 1], ops[|ops| - 1];
      CallsOfRun(cfg, m, before) + CallsOf(cfg, RunOps(cfg, m, before).daemon, op)
  }

  lemma OneCall(s: MetricsState, e: LogEvent)
    ensures Run(s, [e]) == Apply(s, e) && Run(s, []) == s
  {
    hide Apply;
    assert [e][..0] == [];
  }

  lemma {:induction false} RunConcat(s: MetricsState, a: seq<LogEvent>, b: seq<LogEvent>)
    ensures Run(s, a + b) == Run(Run(s, a), b)
  {
    hide Apply;
    if b == [] {
      assert a + b == a;
    } else {
      var n := |b| - 1;
      assert (a + b)[..|a + b| - 1] == a + b[..n];
      RunConcat(s, a, b[..n]);
    }
  }

  /** The calls a start stands for. */
  lemma StartCalls(cfg: Config, d: DaemonState, target: HostTarget, a: EnsureAnswers)
    ensures var (d', reply) := StartNew(cfg, d, target, a);
            && (reply.ConnectionReady? ==>
                  !reply.reused &&
                  d'.metrics == Apply(d.metrics, Connection(a.metricsAt, target.Key(), target.Display(), false,
                                                            reply.latencyMs)))
            && (FailedStart(reply, a) ==>
                  d'.metrics == Apply(d.metrics, Failure(a.metricsAt, target.Key(), target.Display())))
            && (!reply.ConnectionReady? && !FailedStart(reply, a) ==> d'.metrics == d.metrics)
  {
    hide HostTarget.Key, HostTarget.Display, ConnectionRecorded, FailureRecorded;
  }

  lemma ReuseCalls(d: DaemonState, target: HostTarget, a: EnsureAnswers)
    ensures Reused(d, target, a).metrics ==
            Apply(d.metrics, Connection(a.metricsAt, target.Key(), target.Display(), true, a.probeMs))
  {
    hide HostTarget.Key, HostTarget.Display, ConnectionRecorded, WithReuse;
  }

  lemma ReplyCalls(s: MetricsState, target: HostTarget, reply: Response, a: EnsureAnswers)
    ensures Run(s, CallsOfReply(target, reply, a)) ==
            if reply.ConnectionReady? then
              Apply(s, Connection(a.metricsAt, target.Key(), target.Display(), reply.reused, reply.latencyMs))
            else if FailedStart(reply, a) then Apply(s, Failure(a.metricsAt, target.Key(), target.Display()))
            else s
  {
    hide HostTarget.Key, HostTarget.Display, Run, Apply, FailedStart;
    var calls := CallsOfReply(target, reply, a);
    OneCall(s, if calls == [] then Reconnect(0) else calls[0]);
  }

  lemma EnsureCalls(cfg: Config, d: DaemonState, target: HostTarget, victim: string, a: EnsureAnswers)
    ensures var (d', reply) := Ensure(cfg, d, target, victim, a);
            d'.metrics == Run(d.metrics, CallsOfReply(target, reply, a))
  {
    hide HostTarget.Key, HostTarget.Display, Reused, StartNew, WithRoom, WithoutStale, Run, Apply, CallsOfReply;
    ReplyCalls(d.metrics, target, Ensure(cfg, d, target, victim, a).1, a);
    if target.Key() in d.conns && a.alive {
      ReuseCalls(d, target, a);
    } else {
      AtStart(cfg, d, target.Key(), victim, a.stopped);
      StartCalls(cfg, WithRoom(cfg, WithoutStale(d, target.Key()), victim, a.stopped), target, a);
    }
  }

  lemma OpCalls(cfg: Config, w: World, op: Op)
    requires op.HealthPass? ==> Distinct(op.order)
    ensures Lifecycle.Next(cfg, w, op).daemon.metrics == Run(w.daemon.metrics, CallsOf(cfg, w.daemon, op))
  {
    hide HostTarget.Key, HostTarget.Display, Ensure, CheckKeys, PassCalls, ConnectionRecorded, CallsOfReply;
    match op {
      case EnsureConnection(target, victim, a) => EnsureCalls(cfg, w.daemon, target, victim, a);
      case RegisterExternalMaster(target, _, _, metricsAt) =>
        OneCall(w.daemon.metrics, Connection(metricsAt, target.Key(), target.Display(), false, 0));
      case HealthPass(order, answers) => PassMetrics(cfg, w.daemon, order, answers);
      case _ =>
    }
  }

  /**
   Over every run of whole operations the store holds exactly the calls that requests and
   replies stand for: one connection with the latency of each ready reply, one of latency 0
   for each hand-over, one failure for each failed start, one reconnect for each revival.
   */
  lemma {:induction false} MetricsFollowReplies(cfg: Config, m: MetricsState, ops: seq<Op>)
    requires forall i | 0 <= i < |ops| :: ops[i].HealthPass? ==> Distinct(ops[i].order)
    ensures RunOps(cfg, m, ops).daemon.metrics == Run(m, CallsOfRun(cfg, m, ops))
  {
    hide Lifecycle.Next, CallsOf, Run;
    if ops == [] {
      OneCall(m, Reconnect(0));
    } else {
      var n := |ops| - 1;
      MetricsFollowReplies(cfg, m, ops[..n]);
      var w := RunOps(cfg, m, ops[..n]);
      OpCalls(cfg, w, ops[n]);
      RunConcat(m, CallsOfRun(cfg, m, ops[..n]), CallsOf(cfg, w.daemon, ops[n]));
    }
  }
}
