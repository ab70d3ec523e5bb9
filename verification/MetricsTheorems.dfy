/** The store against its log: day replay, baseline, restarts, conservation. */
module MetricsTheorems {
  import opened Outcomes
  import opened Orders
  import opened Metrics

  /** A call on the store, with the clock reading it used. */
  datatype LogEvent =
    | Connection(at: nat, key: string, hostLabel: string, reused: bool, latencyMs: nat)
    | Failure(at: nat, key: string, hostLabel: string)
    | Reconnect(at: nat)
    | SnapshotTaken(at: nat)

  function Apply(s: MetricsState, e: LogEvent): MetricsState {
    match e
    case Connection(at, key, hostLabel, reused, latencyMs) =>
      ConnectionRecorded(s, at, key, hostLabel, reused, latencyMs)
    case Failure(at, key, hostLabel) => FailureRecorded(s, at, key, hostLabel)
    case Reconnect(at) => ReconnectRecorded(s, at)
    case SnapshotTaken(at) => Rolled(s, at)
  }

  function Run(s: MetricsState, log: seq<LogEvent>): MetricsState {
    if log == [] then s
    else Apply(Run(s, log[..|log| - 1]), log[|log| - 1])
  }

  // ---------------------------------------------------------------- replay of the full log

  datatype Kind = Connections | Reuses | Failures | Reconnects

  /** Selects events by kind, and optionally by day and by host key. */
  datatype Query = Query(kind: Kind, day: Option<nat>, key: Option<string>)

  predicate Matches(e: LogEvent, q: Query) {
    && (match q.kind
        case Connections => e.Connection?
        case Reuses => e.Connection? && e.reused
        case Failures => e.Failure?
        case Reconnects => e.Reconnect?)
    && (q.day.Some? ==> Day(e.at) == q.day.value)
    && (q.key.Some? ==> (e.Connection? || e.Failure?) && e.key == q.key.value)
  }

  function Count(log: seq<LogEvent>, q: Query): nat {
    if log == [] then 0
    else Count(log[..|log| - 1], q) + (if Matches(log[|log| - 1], q) then 1 else 0)
  }

  function OnDay(kind: Kind, d: nat): Query {
    Query(kind, Some(d), None)
  }

  /** The baseline folded over all fresh connections, whatever their day. */
  function BaselineAfter(b0: nat, log: seq<LogEvent>): nat {
    if log == [] then b0
    else
      var b, e := BaselineAfter(b0, log[..|log| - 1]), log[|log| - 1];
      if e.Connection? && !e.reused then (b + e.latencyMs) / 2 else b
  }

  /** Handshake time saved by the reuses of day `d`. */
  function SavedOn(log: seq<LogEvent>, b0: nat, d: nat): nat {
    if log == [] then 0
    else
      var before, e := log[..|log| - 1], log[|log| - 1];
      SavedOn(before, b0, d) +
      if Matches(e, OnDay(Reuses, d)) then SaturatingSub(BaselineAfter(b0, before), e.latencyMs) else 0
  }

  function LatencyOn(log: seq<LogEvent>, d: nat): nat {
    if log == [] then 0
    else LatencyOn(log[..|log| - 1], d) +
         if Matches(log[|log| - 1], OnDay(Connections, d)) then log[|log| - 1].latencyMs else 0
  }

  /** The totals of day `d`, computed from the whole log. */
  function Replay(log: seq<LogEvent>, b0: nat, d: nat): DailyTotals {
    DailyTotals(
      Count(log, OnDay(Connections, d)),
      Count(log, OnDay(Reuses, d)),
      Count(log, OnDay(Failures, d)),
      Count(log, OnDay(Reconnects, d)),
      SavedOn(log, b0, d),
      LatencyOn(log, d),
      Count(log, OnDay(Connections, d)),
      0)
  }

  predicate Chronological(t0: nat, log: seq<LogEvent>) {
    && (forall i | 0 <= i < |log| :: t0 <= log[i].at)
    && (forall i, j | 0 <= i < j < |log| :: log[i].at <= log[j].at)
  }

  predicate RecordedOn(e: LogEvent, d: nat) {
    !e.SnapshotTaken? && Day(e.at) == d
  }

  /** Once something is recorded on day `d`, no later call sees another day. */
  predicate DayNotLeft(log: seq<LogEvent>, d: nat) {
    forall i, j | 0 <= i < j < |log| && RecordedOn(log[i], d) :: Day(log[j].at) == d
  }

  lemma {:induction false} BaselineOfRun(s: MetricsState, log: seq<LogEvent>)
    ensures Run(s, log).baselineHandshakeMs == BaselineAfter(s.baselineHandshakeMs, log)
  {
    if log != [] {
      BaselineOfRun(s, log[..|log| - 1]);
    }
  }

  lemma {:induction false} ReplayEmptyIff(log: seq<LogEvent>, b0: nat, d: nat)
    ensures Replay(log, b0, d) == NO_TOTALS <==> forall i | 0 <= i < |log| :: !RecordedOn(log[i], d)
  {
    if log != [] {
      var before := log[..|log| - 1];
      ReplayEmptyIff(before, b0, d);
      assert forall i | 0 <= i < |before| :: before[i] == log[i];
    }
  }

  lemma DayNotLeftStep(log: seq<LogEvent>, d: nat)
    requires log != []
    ensures var before, e := log[..|log| - 1], log[|log| - 1];
            DayNotLeft(log, d) <==>
            if Day(e.at) == d then DayNotLeft(before, d) else forall i | 0 <= i < |before| :: !RecordedOn(before[i], d)
  {
    var before, e := log[..|log| - 1], log[|log| - 1];
    if Day(e.at) != d && DayNotLeft(log, d) {
      forall i | 0 <= i < |before|
        ensures !RecordedOn(before[i], d)
      {
        assert before[i] == log[i];
      }
    }
  }

  /** What one call adds to the totals of its day. */
  function Added(t: DailyTotals, baseline: nat, e: LogEvent): DailyTotals {
    match e
    case Connection(_, _, _, reused, latencyMs) => TotalsWithConnection(t, baseline, reused, latencyMs)
    case Failure(_, _, _) => t.(failures := t.failures + 1)
    case Reconnect(_) => t.(reconnects := t.reconnects + 1)
    case SnapshotTaken(_) => t
  }

  lemma ReplayStep(before: seq<LogEvent>, b0: nat, e: LogEvent)
    ensures Replay(before + [e], b0, Day(e.at)) == Added(Replay(before, b0, Day(e.at)), BaselineAfter(b0, before), e)
  {
    var log := before + [e];
    assert log[..|log| - 1] == before;
  }

  lemma KeptStep(s: MetricsState, e: LogEvent, now: nat)
    requires Day(e.at) == Day(now)
    ensures Rolled(Apply(s, e), now).totals == Added(Rolled(s, now).totals, s.baselineHandshakeMs, e)
  {
  }

  /**
   The incrementally kept totals, seen on any day, are the replay of that day's
   events over the whole log exactly when the clock did not leave that day after
   something was recorded on it.
   */
  lemma {:induction false} TotalsReplayIff(s: MetricsState, log: seq<LogEvent>, now: nat)
    requires s.totals == NO_TOTALS
    ensures Rolled(Run(s, log), now).totals == Replay(log, s.baselineHandshakeMs, Day(now))
            <==> DayNotLeft(log, Day(now))
  {
    var d, b0 := Day(now), s.baselineHandshakeMs;
    if log != [] {
      var before, e := log[..|log| - 1], log[|log| - 1];
      DayNotLeftStep(log, d);
      BaselineOfRun(s, before);
      ReplayEmptyIff(before, b0, d);
      if Day(e.at) == d {
        TotalsReplayIff(s, before, now);
        ReplayStep(before, b0, e);
        assert log == before + [e];
        KeptStep(Run(s, before), e, now);
      } else {
        assert Replay(log, b0, d) == Replay(before, b0, d);
      }
    }
  }

  function Plus(a: DailyTotals, b: DailyTotals): DailyTotals {
    DailyTotals(a.connections + b.connections, a.reused + b.reused, a.failures + b.failures,
                a.reconnects + b.reconnects, a.timeSavedMs + b.timeSavedMs, a.latencySumMs + b.latencySumMs,
                a.latencySamples + b.latencySamples, a.bytesTransferred + b.bytesTransferred)
  }

  /** What a store holding totals already shows of them on the day of `now`. */
  function Carried(s: MetricsState, now: nat): DailyTotals {
    if s.dayIndex == Day(now) then s.totals else NO_TOTALS
  }

  lemma AddedOnTop(base: DailyTotals, t: DailyTotals, baseline: nat, e: LogEvent)
    ensures Added(Plus(base, t), baseline, e) == Plus(base, Added(t, baseline, e))
  {
  }

  /** The last call was on an earlier day, so nothing of the log or the start is left. */
  lemma EarlierDayLeft(s: MetricsState, log: seq<LogEvent>, now: nat)
    requires log != [] && s.dayIndex <= Day(log[|log| - 1].at) < Day(now)
    requires forall i, j | 0 <= i < j < |log| :: log[i].at <= log[j].at
    ensures Rolled(Run(s, log), now).totals == NO_TOTALS == Replay(log, s.baselineHandshakeMs, Day(now))
    ensures Carried(s, now) == NO_TOTALS
  {
    var n := |log| - 1;
    forall i | 0 <= i < |log|
      ensures !RecordedOn(log[i], Day(now))
    {
      DayMonotone(log[i].at, log[n].at);
    }
    ReplayEmptyIff(log, s.baselineHandshakeMs, Day(now));
    assert Run(s, log).dayIndex == Day(log[n].at);
  }

  /**
   A store that starts with totals, such as one loaded during the day, shows them for the
   rest of their day with the replay of that day's calls on top, and after it the replay only.
   */
  lemma {:induction false} TotalsOnTop(s: MetricsState, t0: nat, log: seq<LogEvent>, now: nat)
    requires s.dayIndex <= Day(t0) && t0 <= now && Chronological(t0, log)
    requires forall i | 0 <= i < |log| :: log[i].at <= now
    ensures Rolled(Run(s, log), now).totals == Plus(Carried(s, now), Replay(log, s.baselineHandshakeMs, Day(now)))
  {
    hide Chronological, Run, Replay, Plus, Added;
    if log == [] {
      NothingOnTop(s, now);
    } else {
      var n := |log| - 1;
      var before, e := log[..n], log[n];
      ChronologicalBefore(t0, log);
      DayMonotone(t0, e.at);
      DayMonotone(e.at, now);
      if Day(e.at) == Day(now) {
        TotalsOnTop(s, t0, before, now);
        BaselineOfRun(s, before);
        assert log == before + [e];
        ReplayStep(before, s.baselineHandshakeMs, e);
        RunAppended(s, before, e);
        KeptStep(Run(s, before), e, now);
        var replayed := Replay(before, s.baselineHandshakeMs, Day(now));
        AddedOnTop(Carried(s, now), replayed, Run(s, before).baselineHandshakeMs, e);
      } else {
        EarlierDayLeft(s, log, now);
        PlusNothing(NO_TOTALS);
      }
    }
  }

  lemma PlusNothing(t: DailyTotals)
    ensures Plus(t, NO_TOTALS) == t
  {
    var sum := Plus(t, NO_TOTALS);
    assert sum.connections == t.connections && sum.reused == t.reused && sum.failures == t.failures;
    assert sum.reconnects == t.reconnects && sum.timeSavedMs == t.timeSavedMs && sum.latencySumMs == t.latencySumMs;
    assert sum.latencySamples == t.latencySamples && sum.bytesTransferred == t.bytesTransferred;
  }

  lemma NothingOnTop(s: MetricsState, now: nat)
    ensures Rolled(Run(s, []), now).totals == Plus(Carried(s, now), Replay([], s.baselineHandshakeMs, Day(now)))
  {
    hide Plus;
    assert Replay([], s.baselineHandshakeMs, Day(now)) == NO_TOTALS by {
      ReplayEmptyIff([], s.baselineHandshakeMs, Day(now));
    }
    PlusNothing(Carried(s, now));
  }

  lemma ChronologicalBefore(t0: nat, log: seq<LogEvent>)
    requires log != [] && Chronological(t0, log)
    ensures Chronological(t0, log[..|log| - 1]) && t0 <= log[|log| - 1].at
    ensures forall i, j | 0 <= i < j < |log| :: log[i].at <= log[j].at
  {
  }

  lemma RunAppended(s: MetricsState, log: seq<LogEvent>, e: LogEvent)
    ensures Run(s, log + [e]) == Apply(Run(s, log), e)
  {
    hide Apply;
    assert (log + [e])[..|log + [e]| - 1] == log;
  }

  /** With a clock that never runs back, every snapshot shows the replay of its day. */
  lemma TotalsRefineLog(s: MetricsState, t0: nat, log: seq<LogEvent>, now: nat)
    requires s.totals == NO_TOTALS
    requires Chronological(t0, log)
    requires forall i | 0 <= i < |log| :: log[i].at <= now
    ensures Rolled(Run(s, log), now).totals == Replay(log, s.baselineHandshakeMs, Day(now))
  {
    var d := Day(now);
    forall i, j | 0 <= i < j < |log| && RecordedOn(log[i], d)
      ensures Day(log[j].at) == d
    {
      DayMonotone(log[i].at, log[j].at);
      DayMonotone(log[j].at, now);
    }
    TotalsReplayIff(s, log, now);
  }

  lemma DayMonotone(a: nat, b: nat)
    requires a <= b
    ensures Day(a) <= Day(b)
  {
  }

  /** A day has 86400 seconds, counted from the epoch. */
  lemma DayBounds(now: nat)
    ensures Day(now) * 86_400 <= now < (Day(now) + 1) * 86_400
  {
  }

  // ---------------------------------------------------------------- the snapshot

  /** The store as a snapshot at `now` sees it. */
  function SeenAt(s: MetricsState, log: seq<LogEvent>, now: nat): MetricsState {
    Rolled(Run(s, log), now)
  }

  /** Each number of a snapshot is the count or the sum of today's events over the whole log. */
  lemma SnapshotShowsToday(s: MetricsState, t0: nat, log: seq<LogEvent>, now: nat, order: seq<string>)
    requires s.totals == NO_TOTALS
    requires Chronological(t0, log)
    requires forall i | 0 <= i < |log| :: log[i].at <= now
    requires Enumerates(order, SeenAt(s, log, now).perHost)
    ensures var snap, today := SnapshotOf(SeenAt(s, log, now), order), Day(now);
            && snap.connectionsToday == Count(log, OnDay(Connections, today))
            && snap.reusedToday == Count(log, OnDay(Reuses, today))
            && snap.failuresToday == Count(log, OnDay(Failures, today))
            && snap.reconnectsToday == Count(log, OnDay(Reconnects, today))
            && snap.timeSavedMs == SavedOn(log, s.baselineHandshakeMs, today)
            && snap.averageLatencyMs * snap.connectionsToday as real == LatencyOn(log, today) as real
            && (snap.connectionsToday == 0 ==> snap.averageLatencyMs == 0.0)
            && snap.bytesTransferred == 0
  {
    hide Run, Rolled, Count, SavedOn, LatencyOn, AverageLatencyMs, Chronological, Day;
    TotalsRefineLog(s, t0, log, now);
    AverageTimesSamples(SeenAt(s, log, now).totals);
    NoConnectionNoLatency(log, Day(now));
  }

  lemma AverageTimesSamples(t: DailyTotals)
    ensures t.latencySamples > 0 ==> AverageLatencyMs(t) * t.latencySamples as real == t.latencySumMs as real
    ensures t.latencySamples == 0 ==> AverageLatencyMs(t) == 0.0
  {
  }

  lemma {:induction false} NoConnectionNoLatency(log: seq<LogEvent>, d: nat)
    ensures Count(log, OnDay(Connections, d)) == 0 ==> LatencyOn(log, d) == 0
  {
    if log != [] {
      NoConnectionNoLatency(log[..|log| - 1], d);
    }
  }

  // ---------------------------------------------------------------- time saved

  function Smaller(a: nat, b: nat): nat {
    if a < b then a else b
  }

  /** The sum of the baselines in force at the reuses of day `d`. */
  function BaselinesOn(log: seq<LogEvent>, b0: nat, d: nat): nat {
    if log == [] then 0
    else
      var before, e := log[..|log| - 1], log[|log| - 1];
      BaselinesOn(before, b0, d) + if Matches(e, OnDay(Reuses, d)) then BaselineAfter(b0, before) else 0
  }

  /** What the reuses of day `d` took, each counted up to the baseline in force. */
  function TakenOn(log: seq<LogEvent>, b0: nat, d: nat): nat {
    if log == [] then 0
    else
      var before, e := log[..|log| - 1], log[|log| - 1];
      TakenOn(before, b0, d) +
      if Matches(e, OnDay(Reuses, d)) then Smaller(BaselineAfter(b0, before), e.latencyMs) else 0
  }

  /** No reuse of day `d` beats the baseline in force. */
  ghost predicate AllSlow(log: seq<LogEvent>, b0: nat, d: nat) {
    forall i | 0 <= i < |log| && Matches(log[i], OnDay(Reuses, d)) ::
      BaselineAfter(b0, log[..i]) <= log[i].latencyMs
  }

  lemma {:induction false} SavedAndTaken(log: seq<LogEvent>, b0: nat, d: nat)
    ensures SavedOn(log, b0, d) + TakenOn(log, b0, d) == BaselinesOn(log, b0, d)
  {
    if log != [] {
      SavedAndTaken(log[..|log| - 1], b0, d);
    }
  }

  lemma AllSlowStep(before: seq<LogEvent>, e: LogEvent, b0: nat, d: nat)
    ensures AllSlow(before + [e], b0, d) <==>
            AllSlow(before, b0, d) && (Matches(e, OnDay(Reuses, d)) ==> BaselineAfter(b0, before) <= e.latencyMs)
  {
    hide BaselineAfter;
    var log, n := before + [e], |before|;
    assert log[..n] == before && log[n] == e;
    assert forall i | 0 <= i < n :: log[i] == before[i] && log[..i] == before[..i];
    if AllSlow(log, b0, d) {
      forall i | 0 <= i < n && Matches(before[i], OnDay(Reuses, d))
        ensures BaselineAfter(b0, before[..i]) <= before[i].latencyMs
      {
        assert Matches(log[i], OnDay(Reuses, d));
      }
    }
  }

  lemma {:induction false} NothingSavedIff(log: seq<LogEvent>, b0: nat, d: nat)
    ensures SavedOn(log, b0, d) == 0 <==> AllSlow(log, b0, d)
  {
    hide AllSlow;
    if log == [] {
      NoneIsSlow(b0, d);
    } else {
      var before, e := log[..|log| - 1], log[|log| - 1];
      NothingSavedIff(before, b0, d);
      AllSlowStep(before, e, b0, d);
      assert log == before + [e];
    }
  }

  lemma NoneIsSlow(b0: nat, d: nat)
    ensures AllSlow([], b0, d)
  {
  }

  /**
   Today's time saved and what today's reuses took, each counted up to the baseline in
   force, make up the sum of those baselines; nothing is saved exactly when no reuse of
   today beats its baseline.
   */
  lemma TimeSavedIs(s: MetricsState, t0: nat, log: seq<LogEvent>, now: nat)
    requires s.totals == NO_TOTALS
    requires Chronological(t0, log)
    requires forall i | 0 <= i < |log| :: log[i].at <= now
    ensures var saved, b0 := SeenAt(s, log, now).totals.timeSavedMs, s.baselineHandshakeMs;
            && saved + TakenOn(log, b0, Day(now)) == BaselinesOn(log, b0, Day(now))
            && (saved == 0 <==> AllSlow(log, b0, Day(now)))
  {
    TotalsRefineLog(s, t0, log, now);
    SavedAndTaken(log, s.baselineHandshakeMs, Day(now));
    NothingSavedIff(log, s.baselineHandshakeMs, Day(now));
  }

  // ---------------------------------------------------------------- the handshake baseline

  function Pow2(n: nat): (p: nat)
    ensures p > 0
  {
    if n == 0 then 1 else 2 * Pow2(n - 1)
  }

  /** The rolling baseline over fresh handshake latencies. */
  function Halved(b0: nat, latencies: seq<nat>): nat {
    if latencies == [] then b0
    else (Halved(b0, latencies[..|latencies| - 1]) + latencies[|latencies| - 1]) / 2
  }

  /** Each latency weighted by the power of two of its position, oldest first. */
  function Weighted(latencies: seq<nat>): nat {
    if latencies == [] then 0
    else Weighted(latencies[..|latencies| - 1]) + Pow2(|latencies| - 1) * latencies[|latencies| - 1]
  }

  function FreshLatencies(log: seq<LogEvent>): seq<nat> {
    if log == [] then []
    else
      var e := log[|log| - 1];
      FreshLatencies(log[..|log| - 1]) + if e.Connection? && !e.reused then [e.latencyMs] else []
  }

  lemma {:induction false} BaselineFoldsFresh(b0: nat, log: seq<LogEvent>)
    ensures BaselineAfter(b0, log) == Halved(b0, FreshLatencies(log))
  {
    if log != [] {
      var before := FreshLatencies(log[..|log| - 1]);
      BaselineFoldsFresh(b0, log[..|log| - 1]);
      var all := FreshLatencies(log);
      assert all != before ==> all[..|all| - 1] == before;
    }
  }

  lemma AtLeastOne(k: int, d: nat)
    requires k >= 1
    ensures k * d >= d
  {
  }

  lemma QuotientIs(n: nat, d: nat, q: nat, r: nat)
    requires n == q * d + r && r < d
    ensures n / d == q
  {
    var q', r' := n / d, n % d;
    assert (q - q') * d == r' - r;
    if q > q' {
      AtLeastOne(q - q', d);
    } else if q < q' {
      assert (q' - q) * d == r - r';
      AtLeastOne(q' - q, d);
    }
  }

  lemma Distribute(p: nat, q: nat, l: nat, h: nat, odd: nat)
    requires q + l == 2 * h + odd
    ensures q * p + p * l == h * (2 * p) + odd * p
  {
    assert q * p + p * l == (q + l) * p;
    assert (2 * h + odd) * p == h * (2 * p) + odd * p;
  }

  lemma FloorOfFloor(x: nat, p: nat, l: nat)
    requires p > 0
    ensures (x / p + l) / 2 == (x + p * l) / (2 * p)
  {
    var q, r := x / p, x % p;
    var h, odd := (q + l) / 2, (q + l) % 2;
    Distribute(p, q, l, h, odd);
    var rest := if odd == 0 then r else p + r;
    assert odd * p + r == rest;
    QuotientIs(x + p * l, 2 * p, h, rest);
  }

  /** Repeated flooring loses nothing: the baseline is one exact weighted quotient. */
  lemma {:induction false} BaselineClosedForm(b0: nat, latencies: seq<nat>)
    ensures Halved(b0, latencies) == (b0 + Weighted(latencies)) / Pow2(|latencies|)
  {
    if latencies != [] {
      var n := |latencies| - 1;
      var before, l := latencies[..n], latencies[n];
      BaselineClosedForm(b0, before);
      var x, p := b0 + Weighted(before), Pow2(n);
      FloorOfFloor(x, p, l);
      assert b0 + Weighted(latencies) == x + p * l;
      assert Pow2(n + 1) == 2 * p;
    }
  }

  /** The baseline stays between the least and the greatest of its inputs. */
  lemma {:induction false} BaselineBounds(b0: nat, latencies: seq<nat>, lo: nat, hi: nat)
    requires lo <= b0 <= hi
    requires forall i | 0 <= i < |latencies| :: lo <= latencies[i] <= hi
    ensures lo <= Halved(b0, latencies) <= hi
  {
    if latencies != [] {
      BaselineBounds(b0, latencies[..|latencies| - 1], lo, hi);
    }
  }

  /** The baseline of a running store, in closed form over its fresh handshakes. */
  lemma BaselineOfLog(s: MetricsState, log: seq<LogEvent>)
    ensures var latencies := FreshLatencies(log);
            Run(s, log).baselineHandshakeMs == (s.baselineHandshakeMs + Weighted(latencies)) / Pow2(|latencies|)
  {
    BaselineOfRun(s, log);
    BaselineFoldsFresh(s.baselineHandshakeMs, log);
    BaselineClosedForm(s.baselineHandshakeMs, FreshLatencies(log));
  }

  lemma CreditWithin(saved: nat, reused: nat, credit: nat, hi: nat)
    requires saved <= reused * hi && credit <= hi
    ensures saved + credit <= (reused + 1) * hi
  {
  }

  /** No reuse is credited with more than the slowest handshake seen. */
  lemma {:induction false} TimeSavedBound(s: MetricsState, log: seq<LogEvent>, hi: nat)
    requires s.totals == NO_TOTALS
    requires s.baselineHandshakeMs <= hi
    requires forall i | 0 <= i < |log| :: log[i].Connection? && !log[i].reused ==> log[i].latencyMs <= hi
    ensures Run(s, log).baselineHandshakeMs <= hi
    ensures Run(s, log).totals.timeSavedMs <= Run(s, log).totals.reused * hi
  {
    if log != [] {
      var e := log[|log| - 1];
      var before := Run(s, log[..|log| - 1]);
      TimeSavedBound(s, log[..|log| - 1], hi);
      var t := Rolled(before, e.at).totals;
      assert t.timeSavedMs <= t.reused * hi;
      if e.Connection? {
        CreditWithin(t.timeSavedMs, t.reused, SaturatingSub(before.baselineHandshakeMs, e.latencyMs), hi);
      }
    }
  }

  const U64_LIMIT := 0x1_0000_0000_0000_0000

  ghost predicate Below(t: DailyTotals, bound: nat) {
    && t.connections <= bound && t.reused <= bound && t.failures <= bound && t.reconnects <= bound
    && t.timeSavedMs <= bound && t.latencySumMs <= bound && t.latencySamples <= bound
  }

  ghost predicate HostsBelow(m: map<string, HostStat>, bound: nat) {
    forall k | k in m :: m[k].connections <= bound && m[k].reused <= bound && m[k].failures <= bound
  }

  /** Every sum the call computes on a totals, baseline or host field fits in 64 bits. */
  ghost predicate SumsFit(s: MetricsState, e: LogEvent) {
    var t := Rolled(s, e.at).totals;
    match e
    case Connection(_, key, _, reused, latencyMs) =>
      && t.connections + 1 < U64_LIMIT
      && t.latencySumMs + latencyMs < U64_LIMIT
      && t.latencySamples + 1 < U64_LIMIT
      && (reused ==> t.reused + 1 < U64_LIMIT)
      && (reused ==> t.timeSavedMs + SaturatingSub(s.baselineHandshakeMs, latencyMs) < U64_LIMIT)
      && (!reused ==> s.baselineHandshakeMs + latencyMs < U64_LIMIT)
      && (key in s.perHost ==> s.perHost[key].connections + 1 < U64_LIMIT)
      && (key in s.perHost && reused ==> s.perHost[key].reused + 1 < U64_LIMIT)
    case Failure(_, key, _) =>
      && t.failures + 1 < U64_LIMIT
      && (key in s.perHost ==> s.perHost[key].failures + 1 < U64_LIMIT)
    case Reconnect(_) => t.reconnects + 1 < U64_LIMIT
    case SnapshotTaken(_) => true
  }

  lemma TotalsGrow(s: MetricsState, e: LogEvent, bound: nat, hi: nat)
    requires Below(s.totals, bound) && s.baselineHandshakeMs <= hi
    requires e.Connection? ==> e.latencyMs <= hi
    ensures Below(Apply(s, e).totals, bound + hi + 1) && Apply(s, e).baselineHandshakeMs <= hi
  {
  }

  lemma HostsGrow(s: MetricsState, e: LogEvent, bound: nat)
    requires HostsBelow(s.perHost, bound)
    ensures HostsBelow(Apply(s, e).perHost, bound + 1)
  {
  }

  lemma SmallSumsFit(s: MetricsState, e: LogEvent, bound: nat, hosts: nat, hi: nat)
    requires Below(s.totals, bound) && HostsBelow(s.perHost, hosts) && s.baselineHandshakeMs <= hi
    requires e.Connection? ==> e.latencyMs <= hi
    requires bound + hi + 1 < U64_LIMIT && hosts + 1 < U64_LIMIT && 2 * hi < U64_LIMIT
    ensures SumsFit(s, e)
  {
  }

  lemma OneMoreCall(n: nat, step: nat)
    ensures (n + 1) * step == n * step + step
  {
  }

  /**
   How large the counters get: with latencies up to `hi` no total gains more than
   `hi + 1` a call, no host counter more than 1, and the baseline stays at most `hi`.
   */
  lemma {:induction false} CountersBounded(s: MetricsState, log: seq<LogEvent>, start: nat, hosts: nat, hi: nat)
    requires Below(s.totals, start) && HostsBelow(s.perHost, hosts) && s.baselineHandshakeMs <= hi
    requires forall i | 0 <= i < |log| :: log[i].Connection? ==> log[i].latencyMs <= hi
    ensures Below(Run(s, log).totals, start + |log| * (hi + 1))
    ensures HostsBelow(Run(s, log).perHost, hosts + |log|)
    ensures Run(s, log).baselineHandshakeMs <= hi
  {
    hide Apply, Below, HostsBelow;
    if log != [] {
      var n := |log| - 1;
      CountersBounded(s, log[..n], start, hosts, hi);
      TotalsGrow(Run(s, log[..n]), log[n], start + n * (hi + 1), hi);
      HostsGrow(Run(s, log[..n]), log[n], hosts + n);
      OneMoreCall(n, hi + 1);
    }
  }

  /**
   While the starting counters plus `hi + 1` a call, and twice `hi`, stay below 2^64, no
   call of the run overflows any 64-bit sum.
   */
  lemma NoOverflow(s: MetricsState, log: seq<LogEvent>, start: nat, hosts: nat, hi: nat)
    requires Below(s.totals, start) && HostsBelow(s.perHost, hosts) && s.baselineHandshakeMs <= hi
    requires forall i | 0 <= i < |log| :: log[i].Connection? ==> log[i].latencyMs <= hi
    requires start + |log| * (hi + 1) < U64_LIMIT && hosts + |log| < U64_LIMIT && 2 * hi < U64_LIMIT
    ensures forall i | 0 <= i < |log| :: SumsFit(Run(s, log[..i]), log[i])
  {
    hide Apply, Below, HostsBelow, SumsFit;
    forall i | 0 <= i < |log|
      ensures SumsFit(Run(s, log[..i]), log[i])
    {
      CountersBounded(s, log[..i], start, hosts, hi);
      OneMoreCall(i, hi + 1);
      FewerCalls(i + 1, |log|, hi + 1);
      SmallSumsFit(Run(s, log[..i]), log[i], start + i * (hi + 1), hosts + i, hi);
    }
  }

  lemma FewerCalls(n: nat, n': nat, step: nat)
    requires n <= n'
    ensures n * step <= n' * step
  {
  }

  // ---------------------------------------------------------------- conservation

  function Stat(h: HostStat, kind: Kind): nat {
    match kind
    case Connections => h.connections
    case Reuses => h.reused
    case Failures => h.failures
    case Reconnects => 0
  }

  function StatOf(m: map<string, HostStat>, key: string, kind: Kind): nat {
    if key in m then Stat(m[key], kind) else 0
  }

  function TotalOf(t: DailyTotals, kind: Kind): nat {
    match kind
    case Connections => t.connections
    case Reuses => t.reused
    case Failures => t.failures
    case Reconnects => t.reconnects
  }

  /** The sum of one counter over all hosts. */
  ghost function SumOverHosts(m: map<string, HostStat>, kind: Kind): nat
    decreases |m|
  {
    if m == map[] then 0
    else
      var k :| k in m;
      Stat(m[k], kind) + SumOverHosts(m - {k}, kind)
  }

  lemma {:induction false} SumWithout(m: map<string, HostStat>, kind: Kind, k: string)
    requires k in m
    ensures SumOverHosts(m, kind) == Stat(m[k], kind) + SumOverHosts(m - {k}, kind)
    decreases |m|
  {
    var c :| c in m && SumOverHosts(m, kind) == Stat(m[c], kind) + SumOverHosts(m - {c}, kind);
    if c != k {
      SumWithout(m - {c}, kind, k);
      SumWithout(m - {k}, kind, c);
      assert m - {c} - {k} == m - {k} - {c};
    }
  }

  lemma SumUpdated(m: map<string, HostStat>, kind: Kind, k: string, h: HostStat)
    ensures SumOverHosts(m[k := h], kind) == SumOverHosts(m, kind) - StatOf(m, k, kind) + Stat(h, kind)
  {
    SumWithout(m[k := h], kind, k);
    assert m[k := h] - {k} == m - {k};
    if k in m {
      SumWithout(m, kind, k);
    } else {
      assert m - {k} == m;
    }
  }

  function Ever(kind: Kind): Query {
    Query(kind, None, None)
  }

  function EverFor(kind: Kind, key: string): Query {
    Query(kind, None, Some(key))
  }

  lemma {:induction false} CountSplits(log: seq<LogEvent>, q: Query)
    requires q.kind.Connections?
    ensures Count(log, q.(kind := Reuses)) <= Count(log, q)
  {
    if log != [] {
      CountSplits(log[..|log| - 1], q);
    }
  }

  /** Holds of the totals in memory and of those in the file, for the calls made so far. */
  ghost predicate TotalsWithin(t: DailyTotals, log: seq<LogEvent>) {
    && t.reused <= t.connections == t.latencySamples
    && forall kind :: TotalOf(t, kind) <= Count(log, Ever(kind))
  }

  ghost predicate HostsConserved(m: map<string, HostStat>, log: seq<LogEvent>) {
    && (forall key, kind: Kind | !kind.Reconnects? :: StatOf(m, key, kind) == Count(log, EverFor(kind, key)))
    && (forall kind: Kind | !kind.Reconnects? :: SumOverHosts(m, kind) == Count(log, Ever(kind)))
  }

  lemma HostsStep(m: map<string, HostStat>, log: seq<LogEvent>, e: LogEvent)
    requires HostsConserved(m, log)
    ensures HostsConserved(
              match e
              case Connection(_, key, hostLabel, reused, latencyMs) =>
                HostsWithConnection(m, key, hostLabel, reused, latencyMs)
              case Failure(_, key, hostLabel) => HostsWithFailure(m, key, hostLabel)
              case _ => m,
              log + [e])
  {
    var longer := log + [e];
    assert longer[..|longer| - 1] == log;
    var m' := match e
      case Connection(_, key, hostLabel, reused, latencyMs) => HostsWithConnection(m, key, hostLabel, reused, latencyMs)
      case Failure(_, key, hostLabel) => HostsWithFailure(m, key, hostLabel)
      case _ => m;
    if e.Connection? || e.Failure? {
      assert m' == m[e.key := m'[e.key]];
      forall kind: Kind | !kind.Reconnects?
        ensures SumOverHosts(m', kind) == Count(longer, Ever(kind))
      {
        SumUpdated(m, kind, e.key, m'[e.key]);
        assert Count(longer, Ever(kind)) == Count(log, Ever(kind)) + if Matches(e, Ever(kind)) then 1 else 0;
      }
    }
  }

  lemma TotalsStep(s: MetricsState, log: seq<LogEvent>, e: LogEvent)
    requires TotalsWithin(s.totals, log)
    ensures TotalsWithin(Apply(s, e).totals, log + [e])
  {
    var longer := log + [e];
    assert longer[..|longer| - 1] == log;
    forall kind
      ensures TotalOf(Apply(s, e).totals, kind) <= Count(longer, Ever(kind))
    {
      assert Count(longer, Ever(kind)) == Count(log, Ever(kind)) + if Matches(e, Ever(kind)) then 1 else 0;
    }
  }

  // ---------------------------------------------------------------- the hosts of the log

  predicate IsAbout(e: LogEvent, key: string) {
    (e.Connection? || e.Failure?) && e.key == key
  }

  predicate Mentioned(log: seq<LogEvent>, key: string) {
    log != [] && (Mentioned(log[..|log| - 1], key) || IsAbout(log[|log| - 1], key))
  }

  /** The label of the first call about the key. */
  function FirstLabel(log: seq<LogEvent>, key: string): string
    requires Mentioned(log, key)
  {
    if Mentioned(log[..|log| - 1], key) then FirstLabel(log[..|log| - 1], key) else log[|log| - 1].hostLabel
  }

  /** The latency of the latest connection to the key, 0 before the first. */
  function LatestLatency(log: seq<LogEvent>, key: string): nat {
    if log == [] then 0
    else if log[|log| - 1].Connection? && log[|log| - 1].key == key then log[|log| - 1].latencyMs
    else LatestLatency(log[..|log| - 1], key)
  }

  /** What the store keeps of one host after the log. */
  function HostOf(log: seq<LogEvent>, key: string): HostStat
    requires Mentioned(log, key)
  {
    HostStat(FirstLabel(log, key), Count(log, EverFor(Connections, key)), Count(log, EverFor(Reuses, key)),
             Count(log, EverFor(Failures, key)), LatestLatency(log, key))
  }

  lemma {:induction false} UnmentionedCountsNothing(log: seq<LogEvent>, key: string)
    requires !Mentioned(log, key)
    ensures forall kind :: Count(log, EverFor(kind, key)) == 0
    ensures LatestLatency(log, key) == 0
  {
    if log != [] {
      UnmentionedCountsNothing(log[..|log| - 1], key);
    }
  }

  /** From an empty per-host map: every host of the log, and nothing else, with everything kept about it. */
  lemma {:induction false} HostsOfLog(s: MetricsState, log: seq<LogEvent>, key: string)
    requires s.perHost == map[]
    ensures var hosts := Run(s, log).perHost;
            && (key in hosts <==> Mentioned(log, key))
            && (key in hosts ==> hosts[key] == HostOf(log, key))
  {
    if log != [] {
      var before := log[..|log| - 1];
      HostsOfLog(s, before, key);
      if !Mentioned(before, key) {
        UnmentionedCountsNothing(before, key);
      }
    }
  }
}
