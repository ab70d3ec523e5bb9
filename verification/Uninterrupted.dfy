/** Operations nobody interrupts: the step system performs the whole operations. */
module Uninterrupted {
  import opened Outcomes
  import opened Orders
  import opened Destination
  import opened Connections
  import opened Daemon
  import opened Interleaving

  // ---------------------------------------------------------------- a session left alone

  ghost function ActsOn(cfg: Config, v: View, acts: seq<Act>): View
    decreases |acts|
  {
    if acts == [] then v else ActsOn(cfg, ActOn(cfg, v, acts[0]), acts[1..])
  }

  lemma {:induction false} ActsConcat(cfg: Config, v: View, a: seq<Act>, b: seq<Act>)
    ensures ActsOn(cfg, v, a + b) == ActsOn(cfg, ActsOn(cfg, v, a), b)
    decreases |a|
  {
    hide ActOn;
    if a == [] {
      assert a + b == b;
    } else {
      assert (a + b)[0] == a[0] && (a + b)[1..] == a[1..] + b;
      ActsConcat(cfg, ActOn(cfg, v, a[0]), a[1..], b);
    }
  }

  lemma OneAct(cfg: Config, v: View, act: Act, rest: seq<Act>)
    ensures ActsOn(cfg, v, [act] + rest) == ActsOn(cfg, ActOn(cfg, v, act), rest)
    ensures ActsOn(cfg, v, []) == v
  {
    hide ActOn;
    assert ([act] + rest)[1..] == rest;
  }

  /** From the request to the capacity check, when the answer is not a reuse. */
  function LookupActs(known: bool, a: EnsureAnswers, target: HostTarget): seq<Act> {
    [Begin(target)] + ([LookUp] + if known then [ProbeAnswers(false, a.probeMs)] + ([DropStale] + []) else [])
  }

  function RoomActs(cfg: Config, m: Table, victim: string, a: EnsureAnswers): seq<Act> {
    [CheckRoom] +
    if |m| < cfg.maxConnections then []
    else if m == map[] then [ChooseVictim(None)] + []
    else [ChooseVictim(Some(victim))] + ([RemoveVictim] + ([StopVictim(a.stopped)] + []))
  }

  function StartActs(a: EnsureAnswers): seq<Act> {
    if a.pathError.Some? then [PathFails(a.pathError.value)] + []
    else [StartAnswers(a.start)] + if a.start.Started? then [InsertEntry(a.at)] + [] else []
  }

  function ReuseActs(target: HostTarget, a: EnsureAnswers): seq<Act> {
    [Begin(target)] + ([LookUp] + ([ProbeAnswers(true, a.probeMs)] + ([MarkReused(a.at)] + [])))
  }

  /** Where a session stands once the daemon has replied. */
  function AfterReply(target: HostTarget, response: Response): Session {
    if response.NeedsInteractive? then AwaitingUser(target, response.controlSocket) else Answered(target, response)
  }

  lemma LookupAlone(cfg: Config, d: DaemonState, target: HostTarget, a: EnsureAnswers, missed: nat)
    ensures ActsOn(cfg, View(Idle, d.conns, d.live, missed), LookupActs(target.Key() in d.conns, a, target)) ==
            View(CheckingRoom(target), WithoutStale(d, target.Key()).conns, d.live, missed)
  {
    hide HostTarget.Key, HostTarget.Display;
    var known := target.Key() in d.conns;
    var last := if known then [ProbeAnswers(false, a.probeMs)] + ([DropStale] + []) else [];
    var v0 := View(Idle, d.conns, d.live, missed);
    OneAct(cfg, v0, Begin(target), [LookUp] + last);
    var v1 := ActOn(cfg, v0, Begin(target));
    OneAct(cfg, v1, LookUp, last);
    if known {
      var v2 := ActOn(cfg, v1, LookUp);
      OneAct(cfg, v2, ProbeAnswers(false, a.probeMs), [DropStale] + []);
      var v3 := ActOn(cfg, v2, ProbeAnswers(false, a.probeMs));
      OneAct(cfg, v3, DropStale, []);
      OneAct(cfg, ActOn(cfg, v3, DropStale), DropStale, []);
    } else {
      OneAct(cfg, ActOn(cfg, v1, LookUp), LookUp, []);
    }
  }

  lemma EvictAlone(cfg: Config, d: DaemonState, target: HostTarget, victim: string, stopped: bool, missed: nat)
    requires IsLru(d.conns, victim)
    ensures var d' := EvictionOf(d, victim, stopped);
            ActsOn(cfg, View(ChoosingVictim(target), d.conns, d.live, missed),
                   [ChooseVictim(Some(victim))] + ([RemoveVictim] + ([StopVictim(stopped)] + []))) ==
            View(Starting(target), d'.conns, d'.live, missed)
  {
    var v0 := View(ChoosingVictim(target), d.conns, d.live, missed);
    OneAct(cfg, v0, ChooseVictim(Some(victim)), [RemoveVictim] + ([StopVictim(stopped)] + []));
    var v1 := View(RemovingVictim(target, victim), d.conns, d.live, missed);
    OneAct(cfg, v1, RemoveVictim, [StopVictim(stopped)] + []);
    var v2 := View(StoppingVictim(target, d.conns[victim].controlSocket), d.conns - {victim}, d.live, missed);
    OneAct(cfg, v2, StopVictim(stopped), []);
    OneAct(cfg, ActOn(cfg, v2, StopVictim(stopped)), RemoveVictim, []);
  }

  lemma RoomAlone(cfg: Config, d: DaemonState, target: HostTarget, victim: string, a: EnsureAnswers, missed: nat)
    requires |d.conns| >= cfg.maxConnections ==> VictimIsLru(d.conns, victim)
    ensures var d' := WithRoom(cfg, d, victim, a.stopped);
            ActsOn(cfg, View(CheckingRoom(target), d.conns, d.live, missed), RoomActs(cfg, d.conns, victim, a)) ==
            View(Starting(target), d'.conns, d'.live, missed)
  {
    hide IsLru;
    var v0 := View(CheckingRoom(target), d.conns, d.live, missed);
    if |d.conns| < cfg.maxConnections {
      OneAct(cfg, v0, CheckRoom, []);
      OneAct(cfg, ActOn(cfg, v0, CheckRoom), CheckRoom, []);
    } else {
      var v1 := View(ChoosingVictim(target), d.conns, d.live, missed);
      if d.conns == map[] {
        OneAct(cfg, v0, CheckRoom, [ChooseVictim(None)] + []);
        OneAct(cfg, v1, ChooseVictim(None), []);
        OneAct(cfg, ActOn(cfg, v1, ChooseVictim(None)), CheckRoom, []);
      } else {
        OneAct(cfg, v0, CheckRoom, [ChooseVictim(Some(victim))] + ([RemoveVictim] + ([StopVictim(a.stopped)] + [])));
        EvictAlone(cfg, d, target, victim, a.stopped, missed);
      }
    }
  }

  lemma StartAlone(cfg: Config, d: DaemonState, target: HostTarget, a: EnsureAnswers, missed: nat)
    ensures var (d', reply) := StartNew(cfg, d, target, a);
            ActsOn(cfg, View(Starting(target), d.conns, d.live, missed), StartActs(a)) ==
            View(AfterReply(target, reply), d'.conns, d'.live, missed)
  {
    hide HostTarget.Key, HostTarget.Display;
    var v0 := View(Starting(target), d.conns, d.live, missed);
    if a.pathError.Some? {
      OneAct(cfg, v0, PathFails(a.pathError.value), []);
      OneAct(cfg, ActOn(cfg, v0, PathFails(a.pathError.value)), LookUp, []);
    } else {
      var last: seq<Act> := if a.start.Started? then [InsertEntry(a.at)] + [] else [];
      OneAct(cfg, v0, StartAnswers(a.start), last);
      var v1 := ActOn(cfg, v0, StartAnswers(a.start));
      if a.start.Started? {
        OneAct(cfg, v1, InsertEntry(a.at), []);
        OneAct(cfg, ActOn(cfg, v1, InsertEntry(a.at)), LookUp, []);
      } else {
        OneAct(cfg, v1, LookUp, []);
      }
    }
  }

  lemma ReuseAlone(cfg: Config, d: DaemonState, target: HostTarget, a: EnsureAnswers, missed: nat)
    requires target.Key() in d.conns
    ensures ActsOn(cfg, View(Idle, d.conns, d.live, missed), ReuseActs(target, a)) ==
            View(Answered(target, ConnectionReady(d.conns[target.Key()].controlSocket, true, a.probeMs)),
                 WithReuse(d.conns, target.Key(), a.probeMs, a.at), d.live, missed)
  {
    hide HostTarget.Key, HostTarget.Display;
    var v0 := View(Idle, d.conns, d.live, missed);
    OneAct(cfg, v0, Begin(target), [LookUp] + ([ProbeAnswers(true, a.probeMs)] + ([MarkReused(a.at)] + [])));
    var v1 := ActOn(cfg, v0, Begin(target));
    OneAct(cfg, v1, LookUp, [ProbeAnswers(true, a.probeMs)] + ([MarkReused(a.at)] + []));
    var v2 := ActOn(cfg, v1, LookUp);
    OneAct(cfg, v2, ProbeAnswers(true, a.probeMs), [MarkReused(a.at)] + []);
    var v3 := ActOn(cfg, v2, ProbeAnswers(true, a.probeMs));
    OneAct(cfg, v3, MarkReused(a.at), []);
    OneAct(cfg, ActOn(cfg, v3, MarkReused(a.at)), LookUp, []);
  }

  /** The acts of a whole `EnsureConnection`, carrying its probe, stop, start and clock answers. */
  function SessionActs(cfg: Config, d: DaemonState, target: HostTarget, victim: string, a: EnsureAnswers): seq<Act> {
    var known := target.Key() in d.conns;
    if known && a.alive then ReuseActs(target, a)
    else LookupActs(known, a, target) + RoomActs(cfg, WithoutStale(d, target.Key()).conns, victim, a) + StartActs(a)
  }

  /**
   A session whose steps nobody interrupts, given the operation's own answers, does to the
   table and the masters exactly what the whole operation does, and ends with its reply.
   */
  lemma WholeOperationIsASession(cfg: Config, d: DaemonState, target: HostTarget, victim: string, a: EnsureAnswers,
                                 missed: nat)
    requires EvictsLru(cfg, d, target, victim, a)
    ensures var (d', reply) := Ensure(cfg, d, target, victim, a);
            ActsOn(cfg, View(Idle, d.conns, d.live, missed), SessionActs(cfg, d, target, victim, a)) ==
            View(AfterReply(target, reply), d'.conns, d'.live, missed)
  {
    hide HostTarget.Key, HostTarget.Display, ActOn, StartNew, LookupActs, RoomActs, StartActs, ReuseActs;
    var key := target.Key();
    var v0 := View(Idle, d.conns, d.live, missed);
    if key in d.conns && a.alive {
      ReuseAlone(cfg, d, target, a, missed);
    } else {
      var d1 := WithoutStale(d, key);
      var d2 := WithRoom(cfg, d1, victim, a.stopped);
      var lookup, start := LookupActs(key in d.conns, a, target), StartActs(a);
      var room := RoomActs(cfg, d1.conns, victim, a);
      LookupAlone(cfg, d, target, a, missed);
      RoomAlone(cfg, d1, target, victim, a, missed);
      StartAlone(cfg, d2, target, a, missed);
      ActsConcat(cfg, v0, lookup, room);
      ActsConcat(cfg, v0, lookup + room, start);
    }
  }

  // ---------------------------------------------------------------- hand-over and close

  /** The CLI's own start and its registration, in two acts of its session; a failed start ends it. */
  lemma HandoverIsASession(cfg: Config, d: DaemonState, target: HostTarget, pid: Option<nat>, at: nat,
                           metricsAt: nat, missed: nat)
    ensures var socket := cfg.pathOf(target.Key());
            var d1 := d.(live := d.live + {socket});
            var d2 := Daemon.Register(d1, target, socket, pid, at, metricsAt);
            ActsOn(cfg, View(AwaitingUser(target, socket), d.conns, d.live, missed),
                   [UserStarts(true)] + ([Act.Register(pid, at)] + [])) ==
            View(Answered(target, Ack), d2.conns, d2.live, missed)
    ensures var waiting := View(AwaitingUser(target, cfg.pathOf(target.Key())), d.conns, d.live, missed);
            ActOn(cfg, waiting, UserStarts(false)) == waiting.(session := Idle)
  {
    hide HostTarget.Key, HostTarget.Display;
    var socket := cfg.pathOf(target.Key());
    var v0 := View(AwaitingUser(target, socket), d.conns, d.live, missed);
    OneAct(cfg, v0, UserStarts(true), [Act.Register(pid, at)] + []);
    var v1 := ActOn(cfg, v0, UserStarts(true));
    OneAct(cfg, v1, Act.Register(pid, at), []);
    OneAct(cfg, ActOn(cfg, v1, Act.Register(pid, at)), LookUp, []);
  }

  /** A close request nobody interrupts, in two steps; one for an unknown key takes none. */
  lemma CloseIsTwoSteps(cfg: Config, s: System, d: DaemonState, key: string, stopped: bool)
    requires s.conns == d.conns && s.live == d.live
    ensures var d' := Close(d, key, stopped).0;
            s.(conns := d'.conns, live := d'.live) ==
            if key in s.conns
            then Next(cfg, Next(cfg, s, CloseRemoves(key)), CloseStops(s.conns[key].controlSocket, stopped))
            else s
  {
    if key in s.conns {
      var socket := s.conns[key].controlSocket;
      assert (s.closing + multiset{socket}) - multiset{socket} == s.closing;
    }
  }

  // ---------------------------------------------------------------- a health pass

  ghost function HealthActsOn(cfg: Config, v: HealthView, acts: seq<HealthAct>): HealthView
    decreases |acts|
  {
    if acts == [] then v else HealthActsOn(cfg, HealthOn(cfg, v, acts[0]), acts[1..])
  }

  lemma {:induction false} HealthActsConcat(cfg: Config, v: HealthView, a: seq<HealthAct>, b: seq<HealthAct>)
    ensures HealthActsOn(cfg, v, a + b) == HealthActsOn(cfg, HealthActsOn(cfg, v, a), b)
    decreases |a|
  {
    hide HealthOn;
    if a == [] {
      assert a + b == b;
    } else {
      assert (a + b)[0] == a[0] && (a + b)[1..] == a[1..] + b;
      HealthActsConcat(cfg, HealthOn(cfg, v, a[0]), a[1..], b);
    }
  }

  lemma OneHealthAct(cfg: Config, v: HealthView, act: HealthAct, rest: seq<HealthAct>)
    ensures HealthActsOn(cfg, v, [act] + rest) == HealthActsOn(cfg, HealthOn(cfg, v, act), rest)
    ensures HealthActsOn(cfg, v, []) == v
  {
    hide HealthOn;
    assert ([act] + rest)[1..] == rest;
  }

  /** What the health task does about one key. */
  function KeyActs(cfg: Config, tracked: bool, a: HealthAnswer): seq<HealthAct> {
    [LookAtNext] +
    if !tracked then []
    else
      [EntryAnswers(a.alive)] +
      if a.alive then [MarkAlive] + []
      else if !cfg.reconnect then [DropEntry] + []
      else
        [RestartAnswers(a.start)] +
        if a.start.Started? then [MarkRestarted] + ([TouchEntry(a.at)] + []) else [DropEntry] + []
  }

  lemma RestartAlone(cfg: Config, d: DaemonState, key: string, rest: seq<string>, a: HealthAnswer)
    requires key in d.conns && !a.alive && cfg.reconnect
    ensures var d' := CheckOne(cfg, d, key, a);
            HealthActsOn(cfg, HealthView(Restarting(key, d.conns[key], rest), d.conns, d.live),
                         [RestartAnswers(a.start)] +
                         if a.start.Started? then [MarkRestarted] + ([TouchEntry(a.at)] + []) else [DropEntry] + []) ==
            HealthView(Scanning(rest), d'.conns, d'.live)
  {
    hide HostTarget.Display;
    var v0 := HealthView(Restarting(key, d.conns[key], rest), d.conns, d.live);
    var v1 := HealthOn(cfg, v0, RestartAnswers(a.start));
    if a.start.Started? {
      OneHealthAct(cfg, v0, RestartAnswers(a.start), [MarkRestarted] + ([TouchEntry(a.at)] + []));
      OneHealthAct(cfg, v1, MarkRestarted, [TouchEntry(a.at)] + []);
      var v2 := HealthOn(cfg, v1, MarkRestarted);
      OneHealthAct(cfg, v2, TouchEntry(a.at), []);
      OneHealthAct(cfg, HealthOn(cfg, v2, TouchEntry(a.at)), MarkAlive, []);
    } else {
      OneHealthAct(cfg, v0, RestartAnswers(a.start), [DropEntry] + []);
      OneHealthAct(cfg, v1, DropEntry, []);
      OneHealthAct(cfg, HealthOn(cfg, v1, DropEntry), MarkAlive, []);
    }
  }

  lemma KeyAlone(cfg: Config, d: DaemonState, key: string, rest: seq<string>, a: HealthAnswer)
    ensures var d' := CheckOne(cfg, d, key, a);
            HealthActsOn(cfg, HealthView(Scanning([key] + rest), d.conns, d.live), KeyActs(cfg, key in d.conns, a)) ==
            HealthView(Scanning(rest), d'.conns, d'.live)
  {
    hide HostTarget.Display;
    assert ([key] + rest)[1..] == rest;
    var v0 := HealthView(Scanning([key] + rest), d.conns, d.live);
    var v1 := HealthOn(cfg, v0, LookAtNext);
    if key !in d.conns {
      OneHealthAct(cfg, v0, LookAtNext, []);
      OneHealthAct(cfg, v1, LookAtNext, []);
    } else {
      OneHealthAct(cfg, v0, LookAtNext, KeyActs(cfg, true, a)[1..]);
      var answered := KeyActs(cfg, true, a)[2..];
      OneHealthAct(cfg, v1, EntryAnswers(a.alive), answered);
      var v2 := HealthOn(cfg, v1, EntryAnswers(a.alive));
      assert KeyActs(cfg, true, a) == [LookAtNext] + ([EntryAnswers(a.alive)] + answered);
      if a.alive || !cfg.reconnect {
        var write := if a.alive then MarkAlive else DropEntry;
        OneHealthAct(cfg, v2, write, []);
        OneHealthAct(cfg, HealthOn(cfg, v2, write), MarkAlive, []);
      } else {
        RestartAlone(cfg, d, key, rest, a);
      }
    }
  }

  /** What the health task does about the keys in the given order. */
  function PassActs(cfg: Config, d: DaemonState, order: seq<string>, answers: string -> HealthAnswer): seq<HealthAct> {
    if order == [] then []
    else
      var n := |order| - 1;
      PassActs(cfg, d, order[..n], answers) +
      KeyActs(cfg, order[n] in CheckKeys(cfg, d, order[..n], answers).conns, answers(order[n]))
  }

  lemma {:induction false} KeysAlone(cfg: Config, d: DaemonState, order: seq<string>, rest: seq<string>,
                                     answers: string -> HealthAnswer)
    ensures var d' := CheckKeys(cfg, d, order, answers);
            HealthActsOn(cfg, HealthView(Scanning(order + rest), d.conns, d.live), PassActs(cfg, d, order, answers)) ==
            HealthView(Scanning(rest), d'.conns, d'.live)
  {
    hide HealthOn, CheckOne, KeyActs;
    var v0 := HealthView(Scanning(order + rest), d.conns, d.live);
    if order == [] {
      assert order + rest == rest;
    } else {
      var n := |order| - 1;
      var before, key := order[..n], order[n];
      assert order + rest == before + ([key] + rest);
      KeysAlone(cfg, d, before, [key] + rest, answers);
      var mid := CheckKeys(cfg, d, before, answers);
      KeyAlone(cfg, mid, key, rest, answers(key));
      HealthActsConcat(cfg, v0, PassActs(cfg, d, before, answers), KeyActs(cfg, key in mid.conns, answers(key)));
    }
  }

  /** The acts of a whole pass, carrying its order and answers. */
  function TaskActs(cfg: Config, d: DaemonState, order: seq<string>, answers: string -> HealthAnswer): seq<HealthAct> {
    [Tick(order)] + (PassActs(cfg, d, order, answers) + [LookAtNext])
  }

  /** A health pass nobody interrupts does to the table and the masters what the whole pass does. */
  lemma WholePassIsATaskRun(cfg: Config, d: DaemonState, order: seq<string>, answers: string -> HealthAnswer)
    requires Enumerates(order, d.conns)
    ensures var d' := CheckKeys(cfg, d, order, answers);
            HealthActsOn(cfg, HealthView(Resting, d.conns, d.live), TaskActs(cfg, d, order, answers)) ==
            HealthView(Resting, d'.conns, d'.live)
  {
    hide CheckKeys, PassActs;
    var v0 := HealthView(Resting, d.conns, d.live);
    var d' := CheckKeys(cfg, d, order, answers);
    var acts := PassActs(cfg, d, order, answers);
    KeysAlone(cfg, d, order, [], answers);
    assert order + [] == order;
    assert [LookAtNext] + [] == [LookAtNext];
    HealthActsConcat(cfg, HealthView(Scanning(order), d.conns, d.live), acts, [LookAtNext]);
    OneHealthAct(cfg, v0, Tick(order), acts + [LookAtNext]);
    var done := HealthView(Scanning([]), d'.conns, d'.live);
    OneHealthAct(cfg, done, LookAtNext, []);
    OneHealthAct(cfg, HealthOn(cfg, done, LookAtNext), LookAtNext, []);
  }

  // ---------------------------------------------------------------- writes that come too late

  /** A session whose entry was removed since its probe answers as it found it, or goes on to start anew. */
  lemma LateSessionWrites(cfg: Config, v: View, act: Act)
    requires v.session.MarkingReused? || v.session.DroppingStale?
    requires v.session.target.Key() !in v.conns
    ensures act.MarkReused? && v.session.MarkingReused? ==>
              ActOn(cfg, v, act) ==
              v.(session := Answered(v.session.target, ConnectionReady(v.session.existing, true, v.session.probeMs)))
    ensures act.DropStale? && v.session.DroppingStale? ==>
              ActOn(cfg, v, act) == v.(session := CheckingRoom(v.session.target))
  {
    hide HostTarget.Key, HostTarget.Display;
    assert v.conns - {v.session.target.Key()} == v.conns;
  }

  /** Whatever the health task writes to an entry that is gone changes nothing, and it goes on. */
  lemma LateHealthWrites(cfg: Config, v: HealthView, act: HealthAct)
    requires v.task.MarkingAlive? || v.task.MarkingRestarted? || v.task.Touching? || v.task.Dropping?
    requires v.task.key !in v.conns
    ensures var v' := HealthOn(cfg, v, act); v'.conns == v.conns && v'.live == v.live
    ensures var task := HealthOn(cfg, v, act).task;
            && (v.task.MarkingAlive? && act.MarkAlive? ==> task == Scanning(v.task.rest))
            && (v.task.MarkingRestarted? && act.MarkRestarted? ==> task == Touching(v.task.key, v.task.rest))
            && (v.task.Touching? && act.TouchEntry? ==> task == Scanning(v.task.rest))
            && (v.task.Dropping? && act.DropEntry? ==> task == Scanning(v.task.rest))
  {
    assert v.conns - {v.task.key} == v.conns;
  }
}
