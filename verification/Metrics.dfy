/** The local metrics store: today's totals, the per-host map and the handshake baseline. */
module Metrics {
  import opened Outcomes
  import opened Orders
  import opened Ranking

  const SECS_PER_DAY := 86_400

  datatype DailyTotals = DailyTotals(
    connections: nat,
    reused: nat,
    failures: nat,
    reconnects: nat,
    timeSavedMs: nat,
    latencySumMs: nat,
    latencySamples: nat,
    bytesTransferred: nat)

  const NO_TOTALS := DailyTotals(0, 0, 0, 0, 0, 0, 0, 0)

  datatype HostStat = HostStat(hostLabel: string, connections: nat, reused: nat, failures: nat, lastLatencyMs: nat)

  /** The contents of the store, in memory and in `metrics.json`. */
  datatype MetricsState = MetricsState(
    dayIndex: nat,
    baselineHandshakeMs: nat,
    totals: DailyTotals,
    perHost: map<string, HostStat>)

  /** What a missing or unreadable file is read as. */
  const DEFAULT_STATE := MetricsState(0, 0, NO_TOTALS, map[])

  function Day(now: nat): nat {
    now / SECS_PER_DAY
  }

  function SaturatingSub(a: nat, b: nat): nat {
    if a >= b then a - b else 0
  }

  function Max(a: nat, b: nat): nat {
    if a >= b then a else b
  }

  /** The contents once the day of `now` has begun. */
  function Rolled(s: MetricsState, now: nat): MetricsState {
    if s.dayIndex == Day(now) then s else s.(dayIndex := Day(now), totals := NO_TOTALS)
  }

  /** The contents of a store opened at `now` over a metrics file. */
  function Loaded(file: Option<MetricsState>, now: nat): MetricsState {
    var loaded := if file.Some? then file.value else DEFAULT_STATE;
    Rolled(loaded, now).(baselineHandshakeMs := Max(loaded.baselineHandshakeMs, 1))
  }

  function TotalsWithConnection(t: DailyTotals, baseline: nat, reused: bool, latencyMs: nat): DailyTotals {
    var counted := t.(connections := t.connections + 1,
                      latencySumMs := t.latencySumMs + latencyMs,
                      latencySamples := t.latencySamples + 1);
    if reused
    then counted.(reused := t.reused + 1, timeSavedMs := t.timeSavedMs + SaturatingSub(baseline, latencyMs))
    else counted
  }

  function BaselineWithConnection(baseline: nat, reused: bool, latencyMs: nat): nat {
    if reused then baseline else (baseline + latencyMs) / 2
  }

  function HostsWithConnection(m: map<string, HostStat>, key: string, hostLabel: string, reused: bool, latencyMs: nat)
    : map<string, HostStat>
  {
    var one := if reused then 1 else 0;
    if key in m
    then m[key := m[key].(connections := m[key].connections + 1,
                          reused := m[key].reused + one,
                          lastLatencyMs := latencyMs)]
    else m[key := HostStat(hostLabel, 1, one, 0, latencyMs)]
  }

  function HostsWithFailure(m: map<string, HostStat>, key: string, hostLabel: string): map<string, HostStat> {
    if key in m
    then m[key := m[key].(failures := m[key].failures + 1)]
    else m[key := HostStat(hostLabel, 0, 0, 1, 0)]
  }

  function ConnectionRecorded(s: MetricsState, now: nat, key: string, hostLabel: string, reused: bool, latencyMs: nat)
    : MetricsState
  {
    MetricsState(
      Day(now),
      BaselineWithConnection(s.baselineHandshakeMs, reused, latencyMs),
      TotalsWithConnection(Rolled(s, now).totals, s.baselineHandshakeMs, reused, latencyMs),
      HostsWithConnection(s.perHost, key, hostLabel, reused, latencyMs))
  }

  function FailureRecorded(s: MetricsState, now: nat, key: string, hostLabel: string): MetricsState {
    var r := Rolled(s, now);
    r.(totals := r.totals.(failures := r.totals.failures + 1), perHost := HostsWithFailure(s.perHost, key, hostLabel))
  }

  function ReconnectRecorded(s: MetricsState, now: nat): MetricsState {
    var r := Rolled(s, now);
    r.(totals := r.totals.(reconnects := r.totals.reconnects + 1))
  }

  /** Label and connection count of each host, in iteration order. */
  function Entries(order: seq<string>, m: map<string, HostStat>): (r: seq<Entry>)
    requires forall k | k in order :: k in m
    ensures |r| == |order|
    ensures forall i | 0 <= i < |r| :: r[i] == (m[order[i]].hostLabel, m[order[i]].connections)
  {
    if order == [] then []
    else [(m[order[0]].hostLabel, m[order[0]].connections)] + Entries(order[1..], m)
  }

  datatype StatsSnapshot = StatsSnapshot(
    connectionsToday: nat,
    reusedToday: nat,
    failuresToday: nat,
    reconnectsToday: nat,
    timeSavedMs: nat,
    averageLatencyMs: real,
    bytesTransferred: nat,
    mostUsedHosts: seq<Entry>)

  function AverageLatencyMs(t: DailyTotals): real {
    if t.latencySamples > 0 then t.latencySumMs as real / t.latencySamples as real else 0.0
  }

  function SnapshotOf(s: MetricsState, order: seq<string>): StatsSnapshot
    requires Enumerates(order, s.perHost)
  {
    StatsSnapshot(
      s.totals.connections,
      s.totals.reused,
      s.totals.failures,
      s.totals.reconnects,
      s.totals.timeSavedMs,
      AverageLatencyMs(s.totals),
      s.totals.bytesTransferred,
      TopFive(Entries(order, s.perHost)))
  }

  /** What writing `metrics.json` did: stored the contents, left the old file, or left an unreadable one. */
  datatype WriteOutcome = Stored | Kept | Damaged

  function FileAfter(file: Option<MetricsState>, s: MetricsState, w: WriteOutcome): Option<MetricsState> {
    match w
    case Stored => Some(s)
    case Kept => file
    case Damaged => None
  }

  class MetricsStore {
    var dayIndex: nat
    var baselineHandshakeMs: nat
    var totals: DailyTotals
    var perHost: map<string, HostStat>
    /** The readable contents of `metrics.json`, if any. */
    var file: Option<MetricsState>

    function State(): MetricsState
      reads this
    {
      MetricsState(dayIndex, baselineHandshakeMs, totals, perHost)
    }

    constructor Load(onDisk: Option<MetricsState>, now: nat, w: WriteOutcome)
      ensures State() == Loaded(onDisk, now)
      ensures file == FileAfter(onDisk, State(), w)
    {
      var today := now / SECS_PER_DAY;
      var loaded := match onDisk case Some(s) => s case None => DEFAULT_STATE;
      if loaded.dayIndex == today {
        dayIndex, totals := loaded.dayIndex, loaded.totals;
      } else {
        dayIndex, totals := today, NO_TOTALS;
      }
      perHost := loaded.perHost;
      baselineHandshakeMs := Max(loaded.baselineHandshakeMs, 1);
      file := onDisk;
      new;
      Persist(w);
    }

    method RollDayIfNeeded(now: nat)
      modifies this
      ensures State() == Rolled(old(State()), now)
      ensures file == old(file)
    {
      var today := now / SECS_PER_DAY;
      if dayIndex != today {
        dayIndex := today;
        totals := NO_TOTALS;
      }
    }

    method RecordConnection(now: nat, key: string, hostLabel: string, reused: bool, latencyMs: nat, w: WriteOutcome)
      modifies this
      ensures State() == ConnectionRecorded(old(State()), now, key, hostLabel, reused, latencyMs)
      ensures file == FileAfter(old(file), State(), w)
    {
      RollDayIfNeeded(now);
      totals := totals.(connections := totals.connections + 1,
                        latencySumMs := totals.latencySumMs + latencyMs,
                        latencySamples := totals.latencySamples + 1);
      if reused {
        totals := totals.(reused := totals.reused + 1);
        var saved := if baselineHandshakeMs >= latencyMs then baselineHandshakeMs - latencyMs else 0;
        totals := totals.(timeSavedMs := totals.timeSavedMs + saved);
      } else {
        baselineHandshakeMs := (baselineHandshakeMs + latencyMs) / 2;
      }
      if key in perHost {
        var stat := perHost[key];
        stat := stat.(connections := stat.connections + 1);
        if reused {
          stat := stat.(reused := stat.reused + 1);
        }
        stat := stat.(lastLatencyMs := latencyMs);
        perHost := perHost[key := stat];
      } else {
        perHost := perHost[key := HostStat(hostLabel, 1, if reused then 1 else 0, 0, latencyMs)];
      }
      Persist(w);
    }

    method RecordFailure(now: nat, key: string, hostLabel: string, w: WriteOutcome)
      modifies this
      ensures State() == FailureRecorded(old(State()), now, key, hostLabel)
      ensures file == FileAfter(old(file), State(), w)
    {
      RollDayIfNeeded(now);
      totals := totals.(failures := totals.failures + 1);
      if key in perHost {
        perHost := perHost[key := perHost[key].(failures := perHost[key].failures + 1)];
      } else {
        perHost := perHost[key := HostStat(hostLabel, 0, 0, 1, 0)];
      }
      Persist(w);
    }

    method RecordReconnect(now: nat, w: WriteOutcome)
      modifies this
      ensures State() == ReconnectRecorded(old(State()), now)
      ensures file == FileAfter(old(file), State(), w)
    {
      RollDayIfNeeded(now);
      totals := totals.(reconnects := totals.reconnects + 1);
      Persist(w);
    }

    /** Rolls the day in memory only: the file keeps the old day until the next record. */
    method Snapshot(now: nat, order: seq<string>) returns (snap: StatsSnapshot)
      requires Enumerates(order, perHost)
      modifies this
      ensures State() == Rolled(old(State()), now)
      ensures file == old(file)
      ensures snap == SnapshotOf(State(), order)
    {
      RollDayIfNeeded(now);
      var mostUsed := CollectEntries(order);
      mostUsed := SortDescending(mostUsed);
      if |mostUsed| > 5 {
        mostUsed := mostUsed[..5];
      }
      snap := StatsSnapshot(totals.connections, totals.reused, totals.failures, totals.reconnects,
                            totals.timeSavedMs, AverageLatencyMs(totals), totals.bytesTransferred, mostUsed);
    }

    method CollectEntries(order: seq<string>) returns (entries: seq<Entry>)
      requires Enumerates(order, perHost)
      ensures entries == Entries(order, perHost)
    {
      entries := [];
      for i := 0 to |order|
        invariant |entries| == i
        invariant forall j | 0 <= j < i :: order[j] in perHost
        invariant forall j | 0 <= j < i :: entries[j] == (perHost[order[j]].hostLabel, perHost[order[j]].connections)
      {
        assert order[i] in order;
        entries := entries + [(perHost[order[i]].hostLabel, perHost[order[i]].connections)];
      }
    }

    method Persist(w: WriteOutcome)
      modifies this`file
      ensures file == FileAfter(old(file), State(), w)
    {
      match w {
        case Stored => file := Some(State());
        case Kept =>
        case Damaged => file := None;
      }
    }
  }
}
