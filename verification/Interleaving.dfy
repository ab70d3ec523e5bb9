/**
 Interleaved sessions: every access to the connection table is one atomic step,
 and anything may happen between two of them. A session is one `sshflow ssh`
 command: its request to the daemon and, if asked for, its own interactive start
 and registration. Beside the sessions run the health task and close requests.
 */
module Interleaving {
  import opened Outcomes
  import opened Orders
  import opened Destination
  import opened Connections
  import opened Daemon

  datatype Session =
    | Idle
    | LookingUp(target: HostTarget)
    | Probing(target: HostTarget, existing: Path)
    | MarkingReused(target: HostTarget, existing: Path, probeMs: nat)
    | DroppingStale(target: HostTarget)
    | CheckingRoom(target: HostTarget)
    | ChoosingVictim(target: HostTarget)
    | RemovingVictim(target: HostTarget, victim: string)
    | StoppingVictim(target: HostTarget, stopping: Path)
    | Starting(target: HostTarget)
    | Inserting(target: HostTarget, elapsedMs: nat)
    | AwaitingUser(target: HostTarget, socket: Path)
    | Registering(target: HostTarget, socket: Path)
    | Answered(target: HostTarget, response: Response)

  datatype Act =
    | Begin(target: HostTarget)
    | LookUp
    | ProbeAnswers(alive: bool, probeMs: nat)
    | MarkReused(now: nat)
    | DropStale
    | CheckRoom
    | ChooseVictim(victim: Option<string>)
    | RemoveVictim
    | StopVictim(stopped: bool)
    | PathFails(error: string)
    | StartAnswers(result: StartResult)
    | InsertEntry(now: nat)
    | UserStarts(started: bool)
    | Register(pid: Option<nat>, now: nat)
    | LoseRegistration
    | Leave

  /** What one act of a session sees and changes. */
  datatype View = View(session: Session, conns: Table, live: set<Path>, missed: nat)

  /** An act that does not fit the session's state changes nothing. */
  ghost function ActOn(cfg: Config, v: View, act: Act): View {
    match v.session
    case Idle =>
      if act.Begin? then v.(session := LookingUp(act.target)) else v
    case LookingUp(target) =>
      if act.LookUp? then v.(session := Found(v.conns, target)) else v
    case Probing(target, existing) =>
      if !act.ProbeAnswers? then v
      else v.(session := if act.alive then MarkingReused(target, existing, act.probeMs) else DroppingStale(target))
    case MarkingReused(target, existing, ms) =>
      if !act.MarkReused? then v
      else v.(conns := WithReuse(v.conns, target.Key(), ms, act.now),
              session := Answered(target, ConnectionReady(existing, true, ms)))
    case DroppingStale(target) =>
      if !act.DropStale? then v
      else v.(conns := v.conns - {target.Key()}, session := CheckingRoom(target))
    case CheckingRoom(target) =>
      if !act.CheckRoom? then v
      else v.(session := if |v.conns| >= cfg.maxConnections then ChoosingVictim(target) else Starting(target))
    case ChoosingVictim(target) =>
      if !act.ChooseVictim? then v
      else if act.victim.None? then (if v.conns == map[] then v.(session := Starting(target)) else v)
      else if IsLru(v.conns, act.victim.value) then v.(session := RemovingVictim(target, act.victim.value))
      else v
    case RemovingVictim(target, victim) =>
      if !act.RemoveVictim? then v
      else if victim in v.conns
      then v.(conns := v.conns - {victim}, session := StoppingVictim(target, v.conns[victim].controlSocket))
      else v.(session := Starting(target), missed := v.missed + 1)
    case StoppingVictim(target, socket) =>
      if !act.StopVictim? then v
      else v.(live := AfterStop(v.live, socket, act.stopped), session := Starting(target))
    case Starting(target) =>
      if act.PathFails?
      then v.(session := Answered(target, Error("could not prepare control socket path: " + act.error)))
      else if act.StartAnswers? then AfterStart(cfg, v, target, act.result)
      else v
    case Inserting(target, ms) =>
      if !act.InsertEntry? then v
      else v.(conns := v.conns[target.Key() :=
                                 NewConnection(target, cfg.pathOf(target.Key()), None, Some(ms), act.now)],
              session := Answered(target, ConnectionReady(cfg.pathOf(target.Key()), false, ms)))
    case AwaitingUser(target, socket) =>
      if !act.UserStarts? then v
      else if act.started then v.(live := v.live + {socket}, session := Registering(target, socket))
      else v.(session := Idle)
    case Registering(target, socket) =>
      if act.LoseRegistration? then v.(session := Idle)
      else if !act.Register? then v
      else v.(conns := v.conns[target.Key() := NewConnection(target, socket, act.pid, None, act.now)],
              session := Answered(target, Ack))
    case Answered(_, _) =>
      if act.Leave? then v.(session := Idle) else v
  }

  function Found(conns: Table, target: HostTarget): Session {
    var key := target.Key();
    if key in conns then Probing(target, conns[key].controlSocket) else CheckingRoom(target)
  }

  function AfterStart(cfg: Config, v: View, target: HostTarget, result: StartResult): View {
    var socket := cfg.pathOf(target.Key());
    match result
    case Started(ms) => v.(live := v.live + {socket}, session := Inserting(target, ms))
    case NeedsInteractiveAuth => v.(session := AwaitingUser(target, socket))
    case StartFailed(reason) => v.(session := Answered(target, Error(reason)))
    case StartAborted(joinError) => v.(session := Answered(target, Error("internal error: " + joinError)))
  }

  datatype HealthTask =
    | Resting
    | Scanning(rest: seq<string>)
    | CheckingEntry(key: string, conn: ManagedConnection, rest: seq<string>)
    | MarkingAlive(key: string, rest: seq<string>)
    | Restarting(key: string, conn: ManagedConnection, rest: seq<string>)
    | MarkingRestarted(key: string, rest: seq<string>)
    | Touching(key: string, rest: seq<string>)
    | Dropping(key: string, rest: seq<string>)

  datatype HealthAct =
    | Tick(order: seq<string>)
    | LookAtNext
    | EntryAnswers(alive: bool)
    | MarkAlive
    | RestartAnswers(result: StartResult)
    | MarkRestarted
    | TouchEntry(now: nat)
    | DropEntry

  datatype HealthView = HealthView(task: HealthTask, conns: Table, live: set<Path>)

  ghost function HealthOn(cfg: Config, v: HealthView, act: HealthAct): HealthView {
    match v.task
    case Resting =>
      if act.Tick? && Enumerates(act.order, v.conns) then v.(task := Scanning(act.order)) else v
    case Scanning(keys) =>
      if !act.LookAtNext? then v
      else if keys == [] then v.(task := Resting)
      else if keys[0] in v.conns then v.(task := CheckingEntry(keys[0], v.conns[keys[0]], keys[1..]))
      else v.(task := Scanning(keys[1..]))
    case CheckingEntry(key, conn, rest) =>
      if !act.EntryAnswers? then v
      else v.(task := if act.alive then MarkingAlive(key, rest)
                      else if cfg.reconnect then Restarting(key, conn, rest)
                      else Dropping(key, rest))
    case MarkingAlive(key, rest) =>
      if !act.MarkAlive? then v else v.(conns := WithHealth(v.conns, key, true), task := Scanning(rest))
    case Restarting(key, conn, rest) =>
      if !act.RestartAnswers? then v
      else if act.result.Started? then v.(live := v.live + {conn.controlSocket}, task := MarkingRestarted(key, rest))
      else v.(task := Dropping(key, rest))
    case MarkingRestarted(key, rest) =>
      if !act.MarkRestarted? then v else v.(conns := WithHealth(v.conns, key, true), task := Touching(key, rest))
    case Touching(key, rest) =>
      if !act.TouchEntry? then v else v.(conns := WithTouch(v.conns, key, act.now), task := Scanning(rest))
    case Dropping(key, rest) =>
      if !act.DropEntry? then v else v.(conns := v.conns - {key}, task := Scanning(rest))
  }

  /** `closing` are sockets of removed entries whose master is still to be stopped. */
  datatype System = System(
    conns: Table,
    sessions: seq<Session>,
    health: HealthTask,
    closing: multiset<Path>,
    live: set<Path>,
    missed: nat)

  datatype Step =
    | SessionStep(who: nat, act: Act)
    | HealthStep(healthAct: HealthAct)
    | CloseRemoves(key: string)
    | CloseStops(socket: Path, stopped: bool)
    | MasterDies(socket: Path)

  ghost function Next(cfg: Config, s: System, step: Step): System {
    match step
    case SessionStep(who, act) =>
      if who >= |s.sessions| then s
      else
        var v := ActOn(cfg, View(s.sessions[who], s.conns, s.live, s.missed), act);
        s.(conns := v.conns, sessions := s.sessions[who := v.session], live := v.live, missed := v.missed)
    case HealthStep(act) =>
      var v := HealthOn(cfg, HealthView(s.health, s.conns, s.live), act);
      s.(conns := v.conns, health := v.task, live := v.live)
    case CloseRemoves(key) =>
      if key in s.conns
      then s.(conns := s.conns - {key}, closing := s.closing + multiset{s.conns[key].controlSocket})
      else s
    case CloseStops(socket, stopped) =>
      if socket in s.closing
      then s.(closing := s.closing - multiset{socket}, live := AfterStop(s.live, socket, stopped))
      else s
    case MasterDies(socket) => s.(live := s.live - {socket})
  }

  function AllIdle(k: nat): (r: seq<Session>)
    ensures |r| == k && forall i | 0 <= i < k :: r[i] == Idle
  {
    if k == 0 then [] else AllIdle(k - 1) + [Idle]
  }

  function Initial(k: nat): System {
    System(map[], AllIdle(k), Resting, multiset{}, {}, 0)
  }

  /** The system of at most `k` simultaneous sessions after any sequence of steps. */
  ghost function Run(cfg: Config, k: nat, steps: seq<Step>): System {
    if steps == [] then Initial(k)
    else Next(cfg, Run(cfg, k, steps[..|steps| - 1]), steps[|steps| - 1])
  }
}

/** What holds in every interleaving. */
module InterleavingTheorems {
  import opened Orders
  import opened Destination
  import opened Connections
  import opened ConnectionsTheorems
  import opened Daemon
  import opened Interleaving

  // ---------------------------------------------------------------- the capacity bound

  /** Past the capacity check and its eviction, and not yet inserted, failed or handed over. */
  predicate InFlight(s: Session) {
    s.StoppingVictim? || s.Starting? || s.Inserting? || s.AwaitingUser? || s.Registering?
  }

  function Weight(s: Session): nat {
    if InFlight(s) then 1 else 0
  }

  function CountInFlight(sessions: seq<Session>): (n: nat)
    ensures n <= |sessions|
  {
    if sessions == [] then 0 else Weight(sessions[0]) + CountInFlight(sessions[1..])
  }

  lemma {:induction false} CountUpdated(sessions: seq<Session>, i: nat, s: Session)
    requires i < |sessions|
    ensures CountInFlight(sessions[i := s]) == CountInFlight(sessions) - Weight(sessions[i]) + Weight(s)
  {
    if i == 0 {
      assert sessions[i := s][1..] == sessions[1..];
    } else {
      CountUpdated(sessions[1..], i - 1, s);
      assert sessions[i := s][1..] == sessions[1..][i - 1 := s];
    }
  }

  /** The session's next act writes to the table. */
  predicate WritesTable(s: Session) {
    s.MarkingReused? || s.DroppingStale? || s.RemovingVictim? || s.Inserting? || s.Registering?
  }

  lemma ReadingActs(cfg: Config, v: View, act: Act)
    requires !WritesTable(v.session)
    ensures var v' := ActOn(cfg, v, act);
            && v'.conns == v.conns && v'.missed == v.missed
            && (Weight(v'.session) <= Weight(v.session) || |v.conns| < Capacity(cfg))
  {
    hide HostTarget.Key, HostTarget.Display, IsLru;
    if v.session.ChoosingVictim? && v.conns == map[] {
      assert |v.conns| == 0;
    }
  }

  lemma InsertingActs(cfg: Config, v: View, act: Act)
    requires v.session.Inserting? || v.session.Registering?
    ensures var v' := ActOn(cfg, v, act);
            && v.missed == v'.missed
            && |v'.conns| + Weight(v'.session) <= |v.conns| + Weight(v.session)
  {
    hide HostTarget.Key, HostTarget.Display, NewConnection;
    var v' := ActOn(cfg, v, act);
    if v'.conns != v.conns {
      var key := v.session.target.Key();
      InsertionGrows(v.conns, key, v'.conns[key]);
    }
  }

  lemma StaleDropActs(cfg: Config, v: View, act: Act)
    requires v.session.DroppingStale?
    ensures var v' := ActOn(cfg, v, act);
            |v'.conns| <= |v.conns| && v'.missed == v.missed && Weight(v'.session) == Weight(v.session)
  {
    hide HostTarget.Key, HostTarget.Display;
    RemovalShrinks(v.conns, v.session.target.Key());
  }

  lemma EvictingActs(cfg: Config, v: View, act: Act)
    requires v.session.RemovingVictim?
    ensures var v' := ActOn(cfg, v, act);
            && v.missed <= v'.missed
            && |v'.conns| + Weight(v'.session) + v.missed <= |v.conns| + Weight(v.session) + v'.missed
  {
    hide HostTarget.Key, HostTarget.Display;
    RemovalShrinks(v.conns, v.session.victim);
  }

  lemma ReusingActs(cfg: Config, v: View, act: Act)
    requires v.session.MarkingReused?
    ensures var v' := ActOn(cfg, v, act);
            |v'.conns| == |v.conns| && v'.missed == v.missed && Weight(v'.session) == Weight(v.session)
  {
    hide HostTarget.Key, HostTarget.Display, WithReuse;
    if act.MarkReused? {
      ReuseKeepsSize(v.conns, v.session.target.Key(), v.session.probeMs, act.now);
    }
  }

  lemma ReuseKeepsSize(m: Table, key: string, ms: nat, now: nat)
    ensures |WithReuse(m, key, ms, now)| == |m|
  {
    assert WithReuse(m, key, ms, now).Keys == m.Keys;
    SameSize(m, WithReuse(m, key, ms, now));
  }

  lemma InsertionGrows(m: Table, key: string, c: ManagedConnection)
    ensures |m[key := c]| <= |m| + 1
  {
    assert m[key := c].Keys == m.Keys + {key};
    assert |m[key := c]| == |m[key := c].Keys| && |m| == |m.Keys|;
  }

  /**
   One act of a session either adds no more to entries and weight than it misses a
   victim, or passes the capacity check below the limit.
   */
  lemma ActPotential(cfg: Config, v: View, act: Act)
    ensures var v' := ActOn(cfg, v, act);
            && v.missed <= v'.missed
            && (|v'.conns| + Weight(v'.session) + v.missed <= |v.conns| + Weight(v.session) + v'.missed
                || |v'.conns| < Capacity(cfg))
  {
    hide ActOn, Weight, Capacity;
    match v.session {
      case MarkingReused(_, _, _) => ReusingActs(cfg, v, act);
      case DroppingStale(_) => StaleDropActs(cfg, v, act);
      case RemovingVictim(_, _) => EvictingActs(cfg, v, act);
      case Inserting(_, _) => InsertingActs(cfg, v, act);
      case Registering(_, _) => InsertingActs(cfg, v, act);
      case _ => ReadingActs(cfg, v, act);
    }
  }

  lemma SameSize(m: Table, m': Table)
    requires m.Keys == m'.Keys
    ensures |m| == |m'|
  {
    assert |m| == |m.Keys| && |m'| == |m'.Keys|;
  }

  lemma DropShrinks(cfg: Config, v: HealthView, act: HealthAct)
    requires v.task.Dropping?
    ensures |HealthOn(cfg, v, act).conns| <= |v.conns|
  {
    RemovalShrinks(v.conns, v.task.key);
  }

  lemma MarksKeepKeys(cfg: Config, v: HealthView, act: HealthAct)
    requires !v.task.Dropping?
    ensures HealthOn(cfg, v, act).conns.Keys == v.conns.Keys
  {
    hide Enumerates;
  }

  lemma HealthNeverAdds(cfg: Config, v: HealthView, act: HealthAct)
    ensures |HealthOn(cfg, v, act).conns| <= |v.conns|
  {
    hide HealthOn;
    if v.task.Dropping? {
      DropShrinks(cfg, v, act);
    } else {
      MarksKeepKeys(cfg, v, act);
      SameSize(v.conns, HealthOn(cfg, v, act).conns);
    }
  }

  ghost predicate WithinBound(cfg: Config, k: nat, s: System) {
    && |s.sessions| == k
    && |s.conns| + CountInFlight(s.sessions) <= Capacity(cfg) + k - 1 + s.missed
  }

  lemma StepKeepsBound(cfg: Config, k: nat, s: System, step: Step)
    requires WithinBound(cfg, k, s)
    ensures WithinBound(cfg, k, Next(cfg, s, step))
  {
    hide ActOn, HealthOn;
    match step {
      case SessionStep(who, act) =>
        if who < |s.sessions| {
          var v := View(s.sessions[who], s.conns, s.live, s.missed);
          ActPotential(cfg, v, act);
          CountUpdated(s.sessions, who, ActOn(cfg, v, act).session);
        }
      case HealthStep(act) =>
        HealthNeverAdds(cfg, HealthView(s.health, s.conns, s.live), act);
      case CloseRemoves(key) =>
        RemovalShrinks(s.conns, key);
      case CloseStops(_, _) =>
      case MasterDies(_) =>
    }
  }

  lemma {:induction false} NoneInFlight(k: nat)
    ensures CountInFlight(AllIdle(k)) == 0
  {
    if k > 0 {
      NoneInFlight(k - 1);
      assert AllIdle(k)[1..] == AllIdle(k - 1);
    }
  }

  /**
   In every interleaving of at most `k` sessions with the health task and close
   requests, tracked entries and sessions past the capacity check and its eviction
   together exceed max(maxConnections, 1) by at most k - 1 and the number of missed
   victims. Sessions still choosing or removing a victim are not counted.
   */
  lemma {:induction false} CapacityBound(cfg: Config, k: nat, steps: seq<Step>)
    ensures var s := Run(cfg, k, steps);
            |s.conns| + CountInFlight(s.sessions) <= Capacity(cfg) + k - 1 + s.missed
    ensures |Run(cfg, k, steps).sessions| == k
  {
    hide Next;
    NoneInFlight(k);
    if steps != [] {
      CapacityBound(cfg, k, steps[..|steps| - 1]);
      StepKeepsBound(cfg, k, Run(cfg, k, steps[..|steps| - 1]), steps[|steps| - 1]);
    }
  }

  /** A lone session has its place reserved, and a victim that is gone has made room. */
  ghost predicate PlaceReserved(cfg: Config, v: View) {
    && |v.conns| + Weight(v.session) <= Capacity(cfg)
    && (v.session.RemovingVictim? && v.session.victim !in v.conns ==> |v.conns| < Capacity(cfg))
  }

  /** A victim just chosen is tracked, and no other act leads to its removal. */
  lemma ChosenIsTracked(cfg: Config, v: View, act: Act)
    requires !v.session.RemovingVictim?
    ensures var v' := ActOn(cfg, v, act);
            v'.session.RemovingVictim? ==> v'.session.victim in v'.conns
  {
    hide HostTarget.Key, HostTarget.Display, WithReuse, NewConnection;
  }

  lemma RemovingKeepsPlace(cfg: Config, v: View, act: Act)
    requires PlaceReserved(cfg, v) && v.session.RemovingVictim?
    ensures PlaceReserved(cfg, ActOn(cfg, v, act))
  {
    RemovalShrinks(v.conns, v.session.victim);
  }

  lemma ActKeepsPlace(cfg: Config, v: View, act: Act)
    requires PlaceReserved(cfg, v)
    ensures PlaceReserved(cfg, ActOn(cfg, v, act))
  {
    hide ActOn, Capacity;
    if v.session.RemovingVictim? {
      RemovingKeepsPlace(cfg, v, act);
    } else {
      ChosenIsTracked(cfg, v, act);
      match v.session {
        case MarkingReused(_, _, _) => ReusingActs(cfg, v, act);
        case DroppingStale(_) => StaleDropActs(cfg, v, act);
        case Inserting(_, _) => InsertingActs(cfg, v, act);
        case Registering(_, _) => InsertingActs(cfg, v, act);
        case _ => ReadingActs(cfg, v, act);
      }
    }
  }

  /** Entries that others remove or mark take no place away. */
  lemma OthersKeepPlace(cfg: Config, v: View, conns: Table)
    requires PlaceReserved(cfg, v) && conns.Keys <= v.conns.Keys
    ensures PlaceReserved(cfg, v.(conns := conns))
  {
    KeysBound(conns, v.conns);
  }

  lemma KeysBound(fewer: Table, more: Table)
    requires fewer.Keys <= more.Keys
    ensures |fewer| <= |more|
    ensures fewer.Keys != more.Keys ==> |fewer| < |more|
  {
    assert |fewer| == |fewer.Keys| && |more| == |more.Keys|;
    var gone := more.Keys - fewer.Keys;
    assert more.Keys == fewer.Keys + gone;
  }

  lemma HealthAddsNoKey(cfg: Config, v: HealthView, act: HealthAct)
    ensures HealthOn(cfg, v, act).conns.Keys <= v.conns.Keys
  {
    if !v.task.Dropping? {
      MarksKeepKeys(cfg, v, act);
    }
  }

  ghost predicate LoneWithinLimit(cfg: Config, s: System) {
    && |s.sessions| == 1
    && PlaceReserved(cfg, View(s.sessions[0], s.conns, s.live, s.missed))
  }

  lemma StepKeepsLimit(cfg: Config, s: System, step: Step)
    requires LoneWithinLimit(cfg, s)
    ensures LoneWithinLimit(cfg, Next(cfg, s, step))
  {
    hide ActOn, HealthOn, PlaceReserved;
    var v, s' := View(s.sessions[0], s.conns, s.live, s.missed), Next(cfg, s, step);
    match step {
      case SessionStep(who, act) =>
        ActKeepsPlace(cfg, v, act);
      case HealthStep(act) =>
        HealthAddsNoKey(cfg, HealthView(s.health, s.conns, s.live), act);
        OthersKeepPlace(cfg, v, s'.conns);
        LiveKeepsPlace(cfg, v.(conns := s'.conns), s'.live);
      case CloseRemoves(key) =>
        OthersKeepPlace(cfg, v, s'.conns);
      case CloseStops(_, _) =>
        LiveKeepsPlace(cfg, v, s'.live);
      case MasterDies(_) =>
        LiveKeepsPlace(cfg, v, s'.live);
    }
  }

  lemma LiveKeepsPlace(cfg: Config, v: View, live: set<Path>)
    requires PlaceReserved(cfg, v)
    ensures PlaceReserved(cfg, v.(live := live))
  {
  }

  /**
   One session at a time respects the limit in every interleaving with the health
   task, close requests and dying masters, even when its victim is taken from it.
   */
  lemma {:induction false} SerialCapacity(cfg: Config, steps: seq<Step>)
    ensures LoneWithinLimit(cfg, Run(cfg, 1, steps))
    ensures |Run(cfg, 1, steps).conns| <= Capacity(cfg)
  {
    hide Next;
    if steps != [] {
      SerialCapacity(cfg, steps[..|steps| - 1]);
      StepKeepsLimit(cfg, Run(cfg, 1, steps[..|steps| - 1]), steps[|steps| - 1]);
    }
  }

  /** Without sessions nothing is ever tracked. */
  lemma {:induction false} NothingTracked(cfg: Config, steps: seq<Step>)
    ensures Run(cfg, 0, steps).conns == map[] && Run(cfg, 0, steps).sessions == []
  {
    hide ActOn, HealthOn;
    if steps != [] {
      var s, step := Run(cfg, 0, steps[..|steps| - 1]), steps[|steps| - 1];
      NothingTracked(cfg, steps[..|steps| - 1]);
      if step.HealthStep? {
        HealthAddsNoKey(cfg, HealthView(s.health, s.conns, s.live), step.healthAct);
      }
    }
  }

  // ---------------------------------------------------------------- canonical sockets

  /** Every socket path a session holds or was told is the one of its target. */
  ghost predicate SessionCanonical(cfg: Config, s: Session) {
    match s
    case Probing(target, existing) => existing == cfg.pathOf(target.Key())
    case MarkingReused(target, existing, _) => existing == cfg.pathOf(target.Key())
    case AwaitingUser(target, socket) => socket == cfg.pathOf(target.Key())
    case Registering(target, socket) => socket == cfg.pathOf(target.Key())
    case Answered(target, response) => response.ConnectionReady? ==> response.controlSocket == cfg.pathOf(target.Key())
    case _ => true
  }

  ghost predicate SystemCanonical(cfg: Config, s: System) {
    && TableCanonical(cfg, s.conns)
    && forall i | 0 <= i < |s.sessions| :: SessionCanonical(cfg, s.sessions[i])
  }

  lemma ReadingActsCanonical(cfg: Config, v: View, act: Act)
    requires !WritesTable(v.session)
    requires TableCanonical(cfg, v.conns) && SessionCanonical(cfg, v.session)
    ensures SessionCanonical(cfg, ActOn(cfg, v, act).session)
  {
    hide HostTarget.Key, HostTarget.Display, IsLru;
  }

  lemma WritingActsCanonical(cfg: Config, v: View, act: Act)
    requires WritesTable(v.session)
    requires TableCanonical(cfg, v.conns) && SessionCanonical(cfg, v.session)
    ensures var v' := ActOn(cfg, v, act);
            TableCanonical(cfg, v'.conns) && SessionCanonical(cfg, v'.session)
  {
    hide HostTarget.Key, HostTarget.Display, IsLru, AfterStart, Found;
  }

  lemma ActCanonical(cfg: Config, v: View, act: Act)
    requires TableCanonical(cfg, v.conns) && SessionCanonical(cfg, v.session)
    ensures var v' := ActOn(cfg, v, act);
            TableCanonical(cfg, v'.conns) && SessionCanonical(cfg, v'.session)
  {
    hide ActOn, SessionCanonical, TableCanonical;
    if WritesTable(v.session) {
      WritingActsCanonical(cfg, v, act);
    } else {
      ReadingActs(cfg, v, act);
      ReadingActsCanonical(cfg, v, act);
    }
  }

  lemma HealthCanonical(cfg: Config, v: HealthView, act: HealthAct)
    requires TableCanonical(cfg, v.conns)
    ensures TableCanonical(cfg, HealthOn(cfg, v, act).conns)
  {
    hide HostTarget.Key, HostTarget.Display;
  }

  /**
   In every interleaving each entry stands under its own target's key with the
   socket path of that key, and every ready reply and every hand-over carries the
   path of the requested target.
   */
  lemma {:induction false} SocketsCanonical(cfg: Config, k: nat, steps: seq<Step>)
    ensures SystemCanonical(cfg, Run(cfg, k, steps))
  {
    hide HostTarget.Key, HostTarget.Display, ActOn, HealthOn;
    if steps != [] {
      var s, step := Run(cfg, k, steps[..|steps| - 1]), steps[|steps| - 1];
      SocketsCanonical(cfg, k, steps[..|steps| - 1]);
      match step {
        case SessionStep(who, act) =>
          if who < |s.sessions| {
            ActCanonical(cfg, View(s.sessions[who], s.conns, s.live, s.missed), act);
          }
        case HealthStep(act) => HealthCanonical(cfg, HealthView(s.health, s.conns, s.live), act);
        case _ =>
      }
    }
  }
}
