/** The effect of one health pass over the whole table. */
module Health {
  import opened Orders
  import opened Destination
  import opened Connections
  import opened Metrics
  import opened MetricsTheorems
  import opened Daemon
  import opened Lifecycle

  predicate Survives(cfg: Config, a: HealthAnswer) {
    a.alive || (cfg.reconnect && a.start.Started?)
  }

  /** An entry after its check: marked healthy; a revived one was also used just now. */
  function Checked(c: ManagedConnection, a: HealthAnswer): ManagedConnection {
    if a.alive then c.(healthy := true) else c.(healthy := true, lastUsed := a.at)
  }

  /** The table once the keys of `done` are checked. */
  function CheckedTable(cfg: Config, m: Table, done: seq<string>, answers: string -> HealthAnswer): Table {
    map k | k in m && (k in done ==> Survives(cfg, answers(k))) ::
      if k in done then Checked(m[k], answers(k)) else m[k]
  }

  lemma OneMoreChecked(cfg: Config, m: Table, d: DaemonState, before: seq<string>, key: string,
                       answers: string -> HealthAnswer)
    requires d.conns == CheckedTable(cfg, m, before, answers) && key !in before
    ensures CheckOne(cfg, d, key, answers(key)).conns == CheckedTable(cfg, m, before + [key], answers)
  {
    hide HostTarget.Display, ReconnectRecorded;
    var a, after := answers(key), CheckOne(cfg, d, key, answers(key)).conns;
    assert key in m <==> key in d.conns;
    assert forall k :: k in before + [key] <==> k in before || k == key;
    if key in m {
      assert d.conns[key] == m[key];
      assert after == if Survives(cfg, a) then d.conns[key := Checked(m[key], a)] else d.conns - {key};
    }
  }

  lemma {:induction false} PassTable(cfg: Config, d: DaemonState, order: seq<string>, answers: string -> HealthAnswer)
    requires Distinct(order)
    ensures CheckKeys(cfg, d, order, answers).conns == CheckedTable(cfg, d.conns, order, answers)
  {
    if order != [] {
      var n := |order| - 1;
      var before, key := order[..n], order[n];
      PassTable(cfg, d, before, answers);
      assert order == before + [key];
      OneMoreChecked(cfg, d.conns, CheckKeys(cfg, d, before, answers), before, key, answers);
    } else {
      assert CheckedTable(cfg, d.conns, [], answers) == d.conns;
    }
  }

  /**
   A pass leaves exactly the keys that answered or were restarted, all marked
   healthy; only revived entries change anything else, and only `lastUsed`.
   */
  lemma PassEffect(cfg: Config, d: DaemonState, order: seq<string>, answers: string -> HealthAnswer)
    requires Enumerates(order, d.conns)
    ensures var after := CheckKeys(cfg, d, order, answers).conns;
            && (forall k :: k in after <==> k in d.conns && Survives(cfg, answers(k)))
            && (forall k | k in after :: after[k] == Checked(d.conns[k], answers(k)) && after[k].healthy)
  {
    PassTable(cfg, d, order, answers);
  }

  /** The order in which the table is walked does not matter to the table. */
  lemma PassOrderFree(cfg: Config, d: DaemonState, order: seq<string>, other: seq<string>,
                      answers: string -> HealthAnswer)
    requires Enumerates(order, d.conns) && Enumerates(other, d.conns)
    ensures CheckKeys(cfg, d, order, answers).conns == CheckKeys(cfg, d, other, answers).conns
  {
    PassTable(cfg, d, order, answers);
    PassTable(cfg, d, other, answers);
  }

  // ---------------------------------------------------------------- events

  /** What one checked key adds to the history. */
  function MarksFor(cfg: Config, m: Table, key: string, a: HealthAnswer): seq<Mark> {
    if key !in m || a.alive then []
    else
      var host := m[key].target.Display();
      if Survives(cfg, a) then [Emitted(Reconnected(key, host, 1))] else [Emitted(ConnectionClosed(key, host))]
  }

  predicate About(mark: Mark, key: string) {
    mark.Emitted? &&
    match mark.event
    case ConnectionOpened(k, _) => k == key
    case ConnectionClosed(k, _) => k == key
    case ConnectionReused(k, _) => k == key
    case Reconnected(k, _, _) => k == key
    case AuthenticationFailed(_, _) => false
  }

  /** The events about one key. */
  function EventsAbout(history: seq<Mark>, key: string): seq<Mark> {
    if history == [] then []
    else
      var mark := history[|history| - 1];
      EventsAbout(history[..|history| - 1], key) + if About(mark, key) then [mark] else []
  }

  lemma EventsAppended(history: seq<Mark>, mark: Mark, key: string)
    ensures EventsAbout(history + [mark], key) == EventsAbout(history, key) + if About(mark, key) then [mark] else []
  {
    assert (history + [mark])[..|history + [mark]| - 1] == history;
  }

  lemma CheckOneEvents(cfg: Config, d: DaemonState, checked: string, a: HealthAnswer, key: string)
    ensures EventsAbout(CheckOne(cfg, d, checked, a).history, key) ==
            EventsAbout(d.history, key) + if checked == key then MarksFor(cfg, d.conns, key, a) else []
  {
    hide HostTarget.Display;
    var after := CheckOne(cfg, d, checked, a);
    if after.history == d.history {
    } else {
      var mark := after.history[|after.history| - 1];
      assert after.history == d.history + [mark];
      EventsAppended(d.history, mark, key);
    }
  }

  /** What the checked keys add, in their order. */
  function PassMarks(cfg: Config, m: Table, order: seq<string>, answers: string -> HealthAnswer): seq<Mark> {
    if order == [] then []
    else
      var key := order[|order| - 1];
      PassMarks(cfg, m, order[..|order| - 1], answers) + MarksFor(cfg, m, key, answers(key))
  }

  lemma CheckOneHistory(cfg: Config, d: DaemonState, key: string, a: HealthAnswer)
    ensures CheckOne(cfg, d, key, a).history == d.history + MarksFor(cfg, d.conns, key, a)
  {
    hide HostTarget.Display, ReconnectRecorded;
  }

  /** The history grows by the marks of the checked keys and nothing else. */
  lemma {:induction false} PassHistory(cfg: Config, d: DaemonState, order: seq<string>, answers: string -> HealthAnswer)
    requires Distinct(order)
    ensures CheckKeys(cfg, d, order, answers).history == d.history + PassMarks(cfg, d.conns, order, answers)
  {
    hide HostTarget.Display, CheckOne, CheckedTable, MarksFor;
    if order != [] {
      var n := |order| - 1;
      var before, key := order[..n], order[n];
      PassHistory(cfg, d, before, answers);
      PassTable(cfg, d, before, answers);
      CheckOneHistory(cfg, CheckKeys(cfg, d, before, answers), key, answers(key));
      assert key !in before;
      UncheckedUntouched(cfg, d.conns, before, key, answers);
    }
  }

  /** About each key a pass emits one reconnect event if it was revived, one close event if it was dropped, or none. */
  lemma {:induction false} PassEvents(cfg: Config, d: DaemonState, order: seq<string>,
                                      answers: string -> HealthAnswer, key: string)
    requires Distinct(order)
    ensures EventsAbout(CheckKeys(cfg, d, order, answers).history, key) ==
            EventsAbout(d.history, key) + if key in order then MarksFor(cfg, d.conns, key, answers(key)) else []
  {
    hide HostTarget.Display, CheckOne, CheckedTable, MarksFor, EventsAbout;
    if order != [] {
      var n := |order| - 1;
      var before, last := order[..n], order[n];
      PassEvents(cfg, d, before, answers, key);
      PassTable(cfg, d, before, answers);
      var mid := CheckKeys(cfg, d, before, answers);
      CheckOneEvents(cfg, mid, last, answers(last), key);
      assert order == before + [last];
      assert last !in before;
      UncheckedUntouched(cfg, d.conns, before, last, answers);
    }
  }

  lemma UncheckedUntouched(cfg: Config, m: Table, done: seq<string>, key: string, answers: string -> HealthAnswer)
    requires key !in done
    ensures MarksFor(cfg, CheckedTable(cfg, m, done, answers), key, answers(key)) == MarksFor(cfg, m, key, answers(key))
  {
    hide HostTarget.Display;
  }

  /** The metrics calls of a pass: one reconnect per revived key, in order. */
  function PassCalls(cfg: Config, m: Table, order: seq<string>, answers: string -> HealthAnswer): seq<LogEvent> {
    if order == [] then []
    else
      var key := order[|order| - 1];
      PassCalls(cfg, m, order[..|order| - 1], answers) +
      if key in m && !answers(key).alive && Survives(cfg, answers(key))
      then [LogEvent.Reconnect(answers(key).metricsAt)]
      else []
  }

  lemma CheckOneMetrics(cfg: Config, d: DaemonState, key: string, a: HealthAnswer)
    ensures CheckOne(cfg, d, key, a).metrics ==
            if key in d.conns && !a.alive && Survives(cfg, a)
            then ReconnectRecorded(d.metrics, a.metricsAt)
            else d.metrics
  {
    hide HostTarget.Display, ReconnectRecorded;
  }

  /** A pass records exactly its revivals. */
  lemma {:induction false} PassMetrics(cfg: Config, d: DaemonState, order: seq<string>, answers: string -> HealthAnswer)
    requires Distinct(order)
    ensures CheckKeys(cfg, d, order, answers).metrics == Run(d.metrics, PassCalls(cfg, d.conns, order, answers))
  {
    hide HostTarget.Display, CheckOne, ReconnectRecorded;
    if order != [] {
      var n := |order| - 1;
      var before, key := order[..n], order[n];
      PassMetrics(cfg, d, before, answers);
      PassTable(cfg, d, before, answers);
      var mid := CheckKeys(cfg, d, before, answers);
      CheckOneMetrics(cfg, mid, key, answers(key));
      assert key !in before;
      assert key in mid.conns <==> key in d.conns;
      var earlier, calls := PassCalls(cfg, d.conns, before, answers), PassCalls(cfg, d.conns, order, answers);
      if calls == earlier {
      } else {
        assert calls[..|calls| - 1] == earlier;
      }
    }
  }

  // ---------------------------------------------------------------- exact passes

  ghost predicate SocketsDistinct(m: Table) {
    forall a, b | a in m && b in m && m[a].controlSocket == m[b].controlSocket :: a == b
  }

  /** The masters a pass restarts. */
  function Revived(cfg: Config, m: Table, done: seq<string>, answers: string -> HealthAnswer): set<Path> {
    set k | k in m && k in done && !answers(k).alive && Survives(cfg, answers(k)) :: m[k].controlSocket
  }

  lemma OneMoreRevived(cfg: Config, m: Table, before: seq<string>, key: string, answers: string -> HealthAnswer)
    ensures Revived(cfg, m, before + [key], answers) ==
            Revived(cfg, m, before, answers) +
            if key in m && !answers(key).alive && Survives(cfg, answers(key)) then {m[key].controlSocket} else {}
  {
    assert forall k :: k in before + [key] <==> k in before || k == key;
  }

  lemma CheckOneLive(cfg: Config, d: DaemonState, key: string, a: HealthAnswer)
    ensures CheckOne(cfg, d, key, a).live ==
            d.live + if key in d.conns && !a.alive && Survives(cfg, a) then {d.conns[key].controlSocket} else {}
  {
    hide HostTarget.Display, ReconnectRecorded;
  }

  lemma {:induction false} ExactPassLive(cfg: Config, d: DaemonState, order: seq<string>,
                                         answers: string -> HealthAnswer)
    requires Distinct(order) && SocketsDistinct(d.conns)
    requires ExactPass(cfg, d, order, answers)
    ensures CheckKeys(cfg, d, order, answers).live == d.live + Revived(cfg, d.conns, order, answers)
    ensures forall k | k in order && k in d.conns :: answers(k).alive <==> d.conns[k].controlSocket in d.live
  {
    hide HostTarget.Display, CheckOne;
    if order != [] {
      var n := |order| - 1;
      var before, key := order[..n], order[n];
      ExactPassLive(cfg, d, before, answers);
      PassTable(cfg, d, before, answers);
      assert order == before + [key];
      assert key !in before;
      var mid := CheckKeys(cfg, d, before, answers);
      CheckOneLive(cfg, mid, key, answers(key));
      OneMoreRevived(cfg, d.conns, before, key, answers);
      assert key in mid.conns <==> key in d.conns;
      assert key in d.conns ==> mid.conns[key] == d.conns[key];
      if key in d.conns {
        assert d.conns[key].controlSocket !in Revived(cfg, d.conns, before, answers);
      }
    }
  }

  /**
   When masters change only by the pass's own restarts and sockets are distinct, the
   keys left are those whose master was live before or was restarted, and each of
   them has a live master afterwards.
   */
  lemma ExactPassEffect(cfg: Config, d: DaemonState, order: seq<string>, answers: string -> HealthAnswer)
    requires Enumerates(order, d.conns) && SocketsDistinct(d.conns)
    requires ExactPass(cfg, d, order, answers)
    ensures var after := CheckKeys(cfg, d, order, answers);
            && (forall k :: k in after.conns <==>
                  k in d.conns && (d.conns[k].controlSocket in d.live || (cfg.reconnect && answers(k).start.Started?)))
            && (forall k | k in after.conns :: after.conns[k].controlSocket in after.live)
  {
    ExactPassLive(cfg, d, order, answers);
    PassEffect(cfg, d, order, answers);
  }
}
