/** The undisturbed daemon is exactly an LRU cache of max(maxConnections, 1) masters. */
module ExactLru {
  import opened Outcomes
  import opened Orders
  import opened Destination
  import opened Connections
  import opened ConnectionsTheorems
  import opened Recency
  import opened Metrics
  import opened Daemon

  datatype Request = Request(target: HostTarget, victim: string, answers: EnsureAnswers)

  function Keys(requests: seq<Request>): (keys: seq<string>)
    ensures |keys| == |requests| && forall i | 0 <= i < |keys| :: keys[i] == requests[i].target.Key()
  {
    if requests == [] then []
    else Keys(requests[..|requests| - 1]) + [requests[|requests| - 1].target.Key()]
  }

  /** The daemon after the requests, from an empty table. */
  function Serve(cfg: Config, m: MetricsState, requests: seq<Request>): DaemonState {
    if requests == [] then DaemonState(map[], m, [], {})
    else
      var r := requests[|requests| - 1];
      Ensure(cfg, Serve(cfg, m, requests[..|requests| - 1]), r.target, r.victim, r.answers).0
  }

  /** The reply to the last request. */
  function LastReply(cfg: Config, m: MetricsState, requests: seq<Request>): Response
    requires requests != []
  {
    var r := requests[|requests| - 1];
    Ensure(cfg, Serve(cfg, m, requests[..|requests| - 1]), r.target, r.victim, r.answers).1
  }

  /** The start succeeds, and an eviction takes a least recently used entry; probe and stop are free. */
  ghost predicate Served(cfg: Config, d: DaemonState, r: Request) {
    && EvictsLru(cfg, d, r.target, r.victim, r.answers)
    && r.answers.pathError.None?
    && r.answers.start.Started?
  }

  function LastRequestTime(requests: seq<Request>): int {
    if requests == [] then -1 else requests[|requests| - 1].answers.at
  }

  /** Served requests under a strictly increasing clock. */
  ghost predicate ServedRun(cfg: Config, m: MetricsState, requests: seq<Request>) {
    requests == [] ||
    var before, r := requests[..|requests| - 1], requests[|requests| - 1];
    && ServedRun(cfg, m, before)
    && Served(cfg, Serve(cfg, m, before), r)
    && LastRequestTime(before) < r.answers.at
  }


  lemma WithoutTail(list: seq<string>)
    requires Distinct(list) && list != []
    ensures Without(list, list[|list| - 1]) == list[..|list| - 1]
  {
    var n := |list| - 1;
    assert list == list[..n] + [list[n]];
    WithoutConcat(list[..n], [list[n]], list[n]);
    assert list[n] !in list[..n];
  }

  lemma VictimIsTail(list: seq<string>, d: DaemonState, clock: int, victim: string, stopped: bool)
    requires Tracks(list, d.conns, clock, true) && list != []
    requires VictimIsLru(d.conns, victim)
    ensures EvictionOf(d, victim, stopped).conns == d.conns - {victim}
    ensures Tracks(list[..|list| - 1], d.conns - {victim}, clock, true)
  {
    assert list[0] in d.conns;
    TailIsLru(list, d.conns, clock, true);
    RemoveStep(list, d.conns, clock, true, victim);
    WithoutTail(list);
  }

  lemma TrackedSize(list: seq<string>, m: Table, clock: int)
    requires Tracks(list, m, clock, true)
    ensures |m| == |list|
    ensures list == [] ==> m == map[]
  {
    DistinctCardinality(list);
    assert m.Keys == KeySet(list);
  }

  /** After the capacity check the table holds the `Capacity - 1` most recent keys. */
  lemma RoomMade(cfg: Config, d: DaemonState, list: seq<string>, clock: int, victim: string, stopped: bool)
    requires Tracks(Take(list, Capacity(cfg)), d.conns, clock, true)
    requires |d.conns| >= cfg.maxConnections ==> VictimIsLru(d.conns, victim)
    ensures Tracks(Take(list, Capacity(cfg) - 1), WithRoom(cfg, d, victim, stopped).conns, clock, true)
  {
    hide VictimIsLru, Tracks;
    var tracked := Take(list, Capacity(cfg));
    TrackedSize(tracked, d.conns, clock);
    if |d.conns| >= cfg.maxConnections && tracked != [] {
      VictimIsTail(tracked, d, clock, victim, stopped);
      assert tracked[..|tracked| - 1] == Take(list, Capacity(cfg) - 1);
    } else {
      assert tracked == Take(list, Capacity(cfg) - 1);
    }
  }

  /** The table is the first `Capacity` of the list, and the clock is no later than `clock`. */
  ghost predicate Holds(cfg: Config, d: DaemonState, list: seq<string>, clock: int) {
    Distinct(list) && Tracks(Take(list, Capacity(cfg)), d.conns, clock, true)
  }

  lemma ServeHit(cfg: Config, d: DaemonState, list: seq<string>, clock: int, r: Request)
    requires Holds(cfg, d, list, clock)
    requires r.target.Key() in d.conns && r.answers.alive && clock < r.answers.at
    ensures var d' := Ensure(cfg, d, r.target, r.victim, r.answers).0;
            Tracks(Take(MoveToFront(list, r.target.Key()), Capacity(cfg)), d'.conns, r.answers.at, true)
  {
    hide HostTarget.Key, HostTarget.Display;
    var key := r.target.Key();
    TakeMoveToFront(list, key, Capacity(cfg));
    UseStep(Take(list, Capacity(cfg)), d.conns, clock, true, key,
            WithReuse(d.conns, key, r.answers.probeMs, r.answers.at)[key]);
  }

  /** The target is entered into a table that holds the list of all others. */
  lemma EnteredInFront(cfg: Config, d: DaemonState, others: seq<string>, clock: int, r: Request)
    requires Tracks(others, d.conns, clock, true) && r.target.Key() !in others
    requires r.answers.pathError.None? && r.answers.start.Started? && clock < r.answers.at
    ensures Tracks([r.target.Key()] + others, StartNew(cfg, d, r.target, r.answers).0.conns, r.answers.at, true)
  {
    hide HostTarget.Key, HostTarget.Display;
    var key := r.target.Key();
    var elapsedMs := r.answers.start.elapsedMs;
    UseStep(others, d.conns, clock, true, key,
            NewConnection(r.target, cfg.pathOf(key), None, Some(elapsedMs), r.answers.at));
    assert MoveToFront(others, key) == [key] + others;
  }

  lemma ServeMiss(cfg: Config, d: DaemonState, list: seq<string>, clock: int, r: Request)
    requires Holds(cfg, d, list, clock)
    requires r.target.Key() !in d.conns && Served(cfg, d, r) && clock < r.answers.at
    ensures var d' := Ensure(cfg, d, r.target, r.victim, r.answers).0;
            Tracks(Take(MoveToFront(list, r.target.Key()), Capacity(cfg)), d'.conns, r.answers.at, true)
  {
    hide HostTarget.Key, HostTarget.Display, StartNew;
    var key := r.target.Key();
    TakeMoveToFront(list, key, Capacity(cfg));
    RoomMade(cfg, d, list, clock, r.victim, r.answers.stopped);
    var fewer := Take(list, Capacity(cfg) - 1);
    TakeFewer(list, key, Capacity(cfg));
    EnteredInFront(cfg, WithRoom(cfg, d, r.victim, r.answers.stopped), fewer, clock, r);
  }

  /** Dropping a stale entry makes the room that its replacement takes. */
  lemma StaleMakesRoom(cfg: Config, d: DaemonState, list: seq<string>, clock: int, key: string)
    requires Holds(cfg, d, list, clock) && key in d.conns
    ensures Tracks(Without(Take(list, Capacity(cfg)), key), WithoutStale(d, key).conns, clock, true)
    ensures |WithoutStale(d, key).conns| < Capacity(cfg)
  {
    var tracked := Take(list, Capacity(cfg));
    RemoveStep(tracked, d.conns, clock, true, key);
    TrackedSize(tracked, d.conns, clock);
    RemovalShrinks(d.conns, key);
  }

  lemma ServeStale(cfg: Config, d: DaemonState, list: seq<string>, clock: int, r: Request)
    requires Holds(cfg, d, list, clock)
    requires r.target.Key() in d.conns && !r.answers.alive && Served(cfg, d, r) && clock < r.answers.at
    ensures var d' := Ensure(cfg, d, r.target, r.victim, r.answers).0;
            Tracks(Take(MoveToFront(list, r.target.Key()), Capacity(cfg)), d'.conns, r.answers.at, true)
  {
    hide HostTarget.Key, HostTarget.Display, StartNew;
    var key := r.target.Key();
    TakeMoveToFront(list, key, Capacity(cfg));
    StaleMakesRoom(cfg, d, list, clock, key);
    var d1 := WithoutStale(d, key);
    if |d1.conns| >= cfg.maxConnections {
      assert d1.conns == map[];
    }
    assert WithRoom(cfg, d1, r.victim, r.answers.stopped) == d1;
    EnteredInFront(cfg, d1, Without(Take(list, Capacity(cfg)), key), clock, r);
  }

  lemma ServeStep(cfg: Config, d: DaemonState, list: seq<string>, clock: int, r: Request)
    requires Holds(cfg, d, list, clock) && Served(cfg, d, r) && clock < r.answers.at
    ensures var d' := Ensure(cfg, d, r.target, r.victim, r.answers).0;
            Holds(cfg, d', MoveToFront(list, r.target.Key()), r.answers.at)
  {
    hide HostTarget.Key, HostTarget.Display, Ensure, Tracks, Served;
    MoveToFrontDistinct(list, r.target.Key());
    if r.target.Key() !in d.conns {
      ServeMiss(cfg, d, list, clock, r);
    } else if r.answers.alive {
      ServeHit(cfg, d, list, clock, r);
    } else {
      ServeStale(cfg, d, list, clock, r);
    }
  }

  lemma {:induction false} ServeTracks(cfg: Config, m: MetricsState, requests: seq<Request>)
    requires ServedRun(cfg, m, requests)
    ensures Holds(cfg, Serve(cfg, m, requests), MostRecent(Keys(requests)), LastRequestTime(requests))
  {
    hide HostTarget.Key, HostTarget.Display, Ensure, Served;
    if requests != [] {
      var before, r := requests[..|requests| - 1], requests[|requests| - 1];
      assert Keys(requests) == Keys(before) + [r.target.Key()];
      assert Keys(requests)[..|before|] == Keys(before);
      ServeTracks(cfg, m, before);
      ServeStep(cfg, Serve(cfg, m, before), MostRecent(Keys(before)), LastRequestTime(before), r);
    }
  }

  /**
   The tracked keys are exactly the most recently requested distinct ones, whatever the
   probes answer, whichever masters die or fail to stop, and even if keys share a path.
   */
  lemma TrackedAreMostRecent(cfg: Config, m: MetricsState, requests: seq<Request>)
    requires ServedRun(cfg, m, requests)
    ensures Serve(cfg, m, requests).conns.Keys == KeySet(Take(MostRecent(Keys(requests)), Capacity(cfg)))
    ensures forall k :: k in Serve(cfg, m, requests).conns <==> RequestedWithin(Keys(requests), k, Capacity(cfg))
  {
    ServeTracks(cfg, m, requests);
    forall k
      ensures k in Take(MostRecent(Keys(requests)), Capacity(cfg)) <==>
        RequestedWithin(Keys(requests), k, Capacity(cfg))
    {
      AmongFirstIff(Keys(requests), k, Capacity(cfg));
    }
  }

  lemma ReplyIff(cfg: Config, d: DaemonState, r: Request)
    requires Served(cfg, d, r)
    ensures var reply := Ensure(cfg, d, r.target, r.victim, r.answers).1;
            reply.ConnectionReady? && (reply.reused <==> r.target.Key() in d.conns && r.answers.alive)
  {
    hide HostTarget.Key, HostTarget.Display;
  }

  /** The keys requested before the last request, and the key of that. */
  lemma KeysBefore(requests: seq<Request>)
    requires requests != []
    ensures var n := |requests| - 1;
            Keys(requests) == Keys(requests[..n]) + [requests[n].target.Key()]
  {
  }

  /**
   A request is answered as reused exactly when fewer than `Capacity` other keys came
   since the last one for its key and the probe finds the master alive.
   */
  lemma ReusedIff(cfg: Config, m: MetricsState, requests: seq<Request>)
    requires requests != [] && ServedRun(cfg, m, requests)
    ensures LastReply(cfg, m, requests).ConnectionReady?
    ensures var n := |requests| - 1;
            LastReply(cfg, m, requests).reused <==>
            && RequestedWithin(Keys(requests[..n]), requests[n].target.Key(), Capacity(cfg))
            && requests[n].answers.alive
  {
    hide HostTarget.Key, HostTarget.Display, Ensure;
    var n := |requests| - 1;
    TrackedAreMostRecent(cfg, m, requests[..n]);
    ReplyIff(cfg, Serve(cfg, m, requests[..n]), requests[n]);
  }

  // ---------------------------------------------------------------- more room never hurts

  function ReuseCount(cfg: Config, m: MetricsState, requests: seq<Request>): nat {
    if requests == [] then 0
    else
      var reply := LastReply(cfg, m, requests);
      ReuseCount(cfg, m, requests[..|requests| - 1]) + if reply.ConnectionReady? && reply.reused then 1 else 0
  }

  lemma RequestedWithinMore(requests: seq<string>, key: string, n: nat, n': nat)
    requires n <= n' && RequestedWithin(requests, key, n)
    ensures RequestedWithin(requests, key, n')
  {
    var i :| 0 <= i < |requests| && requests[i] == key && key !in requests[i + 1..] && |KeySet(requests[i + 1..])| < n;
    assert |KeySet(requests[i + 1..])| < n';
  }

  /** What the smaller daemon would reuse at `i`, the larger one finds alive. */
  ghost predicate AliveToo(small: Config, a: seq<Request>, b: seq<Request>, i: nat)
    requires i < |a| == |b|
  {
    RequestedWithin(Keys(a[..i]), a[i].target.Key(), Capacity(small)) && a[i].answers.alive ==> b[i].answers.alive
  }

  lemma SameKeysBefore(a: seq<Request>, b: seq<Request>, n: nat)
    requires Keys(a) == Keys(b) && n < |a|
    ensures |a| == |b| && Keys(a[..n]) == Keys(b[..n]) && a[n].target.Key() == b[n].target.Key()
  {
    hide HostTarget.Key;
    assert |Keys(a)| == |a| && |Keys(b)| == |b|;
    assert Keys(a)[..n] == Keys(a[..n]) && Keys(b)[..n] == Keys(b[..n]);
    assert Keys(a)[n] == a[n].target.Key() && Keys(b)[n] == b[n].target.Key();
  }

  lemma AliveAt(small: Config, a: seq<Request>, b: seq<Request>, i: nat)
    requires i < |a| == |b| && AliveToo(small, a, b, i)
    requires RequestedWithin(Keys(a[..i]), a[i].target.Key(), Capacity(small)) && a[i].answers.alive
    ensures b[i].answers.alive
  {
  }

  lemma AliveBefore(small: Config, a: seq<Request>, b: seq<Request>, n: nat, i: nat)
    requires i < n <= |a| == |b| && AliveToo(small, a, b, i)
    ensures AliveToo(small, a[..n], b[..n], i)
  {
    hide Keys, RequestedWithin;
    assert a[..n][..i] == a[..i];
  }

  lemma ServedBefore(cfg: Config, m: MetricsState, requests: seq<Request>)
    requires requests != [] && ServedRun(cfg, m, requests)
    ensures ServedRun(cfg, m, requests[..|requests| - 1])
  {
  }

  lemma {:induction false} ReusesGrow(small: Config, large: Config, m: MetricsState, a: seq<Request>, b: seq<Request>)
    requires small.maxConnections <= large.maxConnections
    requires Keys(a) == Keys(b) && |a| == |b|
    requires ServedRun(small, m, a) && ServedRun(large, m, b)
    requires forall i | 0 <= i < |a| :: AliveToo(small, a, b, i)
    ensures ReuseCount(small, m, a) <= ReuseCount(large, m, b)
  {
    hide HostTarget.Key, Keys, ServedRun, Serve, LastReply, RequestedWithin, AliveToo;
    if a != [] {
      var n := |a| - 1;
      SameKeysBefore(a, b, n);
      ServedBefore(small, m, a);
      ServedBefore(large, m, b);
      forall i | 0 <= i < n
        ensures AliveToo(small, a[..n], b[..n], i)
      {
        AliveBefore(small, a, b, n, i);
      }
      ReusesGrow(small, large, m, a[..n], b[..n]);
      ReusedIff(small, m, a);
      ReusedIff(large, m, b);
      if LastReply(small, m, a).reused {
        AliveAt(small, a, b, n);
        RequestedWithinMore(Keys(a[..n]), a[n].target.Key(), Capacity(small), Capacity(large));
      }
    }
  }

  /**
   No Belady anomaly: with a larger `maxConnections` the same requests keep every key
   tracked that was tracked before, whatever the probes answer; and if each probe that
   finds a master alive finds it alive in the larger daemon too, reuses do not drop.
   */
  lemma NoBeladyAnomaly(small: Config, large: Config, m: MetricsState, a: seq<Request>, b: seq<Request>)
    requires small.maxConnections <= large.maxConnections
    requires Keys(a) == Keys(b) && |a| == |b|
    requires ServedRun(small, m, a) && ServedRun(large, m, b)
    ensures Serve(small, m, a).conns.Keys <= Serve(large, m, b).conns.Keys
    ensures (forall i | 0 <= i < |a| :: a[i].answers.alive ==> b[i].answers.alive) ==>
              ReuseCount(small, m, a) <= ReuseCount(large, m, b)
  {
    hide HostTarget.Key, Serve, ReuseCount, ServedRun, RequestedWithin;
    TrackedAreMostRecent(small, m, a);
    TrackedAreMostRecent(large, m, b);
    forall k | k in Serve(small, m, a).conns
      ensures k in Serve(large, m, b).conns
    {
      RequestedWithinMore(Keys(a), k, Capacity(small), Capacity(large));
    }
    if forall i | 0 <= i < |a| :: a[i].answers.alive ==> b[i].answers.alive {
      ReusesGrow(small, large, m, a, b);
    }
  }

  // ---------------------------------------------------------------- undisturbed runs

  /** The probe is exact. */
  ghost predicate ExactProbe(d: DaemonState, r: Request) {
    var key := r.target.Key();
    key in d.conns ==> (r.answers.alive <==> d.conns[key].controlSocket in d.live)
  }

  /** Served requests with exact probes; only evictions end masters. */
  ghost predicate UndisturbedRun(cfg: Config, m: MetricsState, requests: seq<Request>) {
    && ServedRun(cfg, m, requests)
    && forall i | 0 <= i < |requests| :: ExactProbe(Serve(cfg, m, requests[..i]), requests[i])
  }

  /** No two requested keys share a socket path. */
  ghost predicate PathsDistinct(cfg: Config, keys: seq<string>) {
    forall a, b | a in keys && b in keys && cfg.pathOf(a) == cfg.pathOf(b) :: a == b
  }

  ghost predicate AllLive(cfg: Config, d: DaemonState, keys: seq<string>) {
    forall k | k in d.conns :: k in keys && d.conns[k].controlSocket == cfg.pathOf(k) && cfg.pathOf(k) in d.live
  }

  lemma EvictionKeepsLive(cfg: Config, d: DaemonState, victim: string, stopped: bool, keys: seq<string>)
    requires PathsDistinct(cfg, keys) && AllLive(cfg, d, keys)
    ensures AllLive(cfg, EvictionOf(d, victim, stopped), keys)
  {
  }

  lemma ServeKeepsLive(cfg: Config, d: DaemonState, keys: seq<string>, r: Request)
    requires PathsDistinct(cfg, keys + [r.target.Key()]) && AllLive(cfg, d, keys)
    requires Served(cfg, d, r) && ExactProbe(d, r)
    ensures AllLive(cfg, Ensure(cfg, d, r.target, r.victim, r.answers).0, keys + [r.target.Key()])
  {
    hide HostTarget.Key, HostTarget.Display;
    assert PathsDistinct(cfg, keys) by {
      assert forall k | k in keys :: k in keys + [r.target.Key()];
    }
    EvictionKeepsLive(cfg, d, r.victim, r.answers.stopped, keys);
  }

  lemma UndisturbedBefore(cfg: Config, m: MetricsState, requests: seq<Request>, n: nat)
    requires UndisturbedRun(cfg, m, requests) && n + 1 == |requests|
    ensures UndisturbedRun(cfg, m, requests[..n])
  {
    hide Serve, Served, ExactProbe;
    forall i | 0 <= i < n
      ensures ExactProbe(Serve(cfg, m, requests[..n][..i]), requests[..n][i])
    {
      assert requests[..n][..i] == requests[..i];
    }
  }

  lemma KeysPrefix(requests: seq<Request>, n: nat)
    requires n <= |requests|
    ensures Keys(requests[..n]) == Keys(requests)[..n]
  {
    hide HostTarget.Key, Keys;
  }

  lemma PrefixDistinct(cfg: Config, keys: seq<string>, n: nat)
    requires PathsDistinct(cfg, keys) && n <= |keys|
    ensures PathsDistinct(cfg, keys[..n])
  {
    assert forall k | k in keys[..n] :: k in keys;
  }

  lemma FewerDistinct(cfg: Config, requests: seq<Request>, n: nat)
    requires PathsDistinct(cfg, Keys(requests)) && n <= |requests|
    ensures PathsDistinct(cfg, Keys(requests[..n]))
  {
    hide *;
    KeysPrefix(requests, n);
    PrefixDistinct(cfg, Keys(requests), n);
  }

  lemma {:induction false} AllTrackedLive(cfg: Config, m: MetricsState, requests: seq<Request>)
    requires UndisturbedRun(cfg, m, requests) && PathsDistinct(cfg, Keys(requests))
    ensures AllLive(cfg, Serve(cfg, m, requests), Keys(requests))
  {
    hide HostTarget.Key, HostTarget.Display, Ensure, Served, PathsDistinct, ExactProbe, AllLive;
    if requests == [] {
      NoneTracked(cfg, m);
    } else {
      var n := |requests| - 1;
      KeysBefore(requests);
      UndisturbedBefore(cfg, m, requests, n);
      FewerDistinct(cfg, requests, n);
      AllTrackedLive(cfg, m, requests[..n]);
      ServeKeepsLive(cfg, Serve(cfg, m, requests[..n]), Keys(requests[..n]), requests[n]);
    }
  }

  lemma NoneTracked(cfg: Config, m: MetricsState)
    ensures AllLive(cfg, Serve(cfg, m, []), Keys([]))
  {
  }

  /** In an undisturbed run over distinct paths every tracked master is found alive. */
  lemma TrackedAreAlive(cfg: Config, m: MetricsState, requests: seq<Request>)
    requires requests != [] && UndisturbedRun(cfg, m, requests) && PathsDistinct(cfg, Keys(requests))
    ensures var n := |requests| - 1;
            RequestedWithin(Keys(requests[..n]), requests[n].target.Key(), Capacity(cfg)) ==> requests[n].answers.alive
  {
    hide HostTarget.Key, HostTarget.Display, RequestedWithin, Serve, Served;
    var n := |requests| - 1;
    UndisturbedBefore(cfg, m, requests, n);
    FewerDistinct(cfg, requests, n);
    AllTrackedLive(cfg, m, requests[..n]);
    TrackedAreMostRecent(cfg, m, requests[..n]);
    assert ExactProbe(Serve(cfg, m, requests[..n]), requests[n]);
  }

  /** Undisturbed and over distinct paths, a request is reused exactly when its key is recent enough. */
  lemma UndisturbedReusedIff(cfg: Config, m: MetricsState, requests: seq<Request>)
    requires requests != []
    requires UndisturbedRun(cfg, m, requests) && PathsDistinct(cfg, Keys(requests))
    ensures LastReply(cfg, m, requests).ConnectionReady?
    ensures var n := |requests| - 1;
            LastReply(cfg, m, requests).reused <==>
            RequestedWithin(Keys(requests[..n]), requests[n].target.Key(), Capacity(cfg))
  {
    hide HostTarget.Key, Serve, ServedRun, PathsDistinct, RequestedWithin;
    ReusedIff(cfg, m, requests);
    TrackedAreAlive(cfg, m, requests);
  }

  lemma {:induction false} UndisturbedAt(cfg: Config, m: MetricsState, requests: seq<Request>, n: nat)
    requires UndisturbedRun(cfg, m, requests) && n <= |requests|
    ensures UndisturbedRun(cfg, m, requests[..n])
    decreases |requests|
  {
    hide UndisturbedRun;
    if n == |requests| {
      assert requests[..n] == requests;
    } else {
      var last := |requests| - 1;
      UndisturbedBefore(cfg, m, requests, last);
      UndisturbedAt(cfg, m, requests[..last], n);
      assert requests[..last][..n] == requests[..n];
    }
  }

  lemma AliveInLarger(small: Config, large: Config, m: MetricsState, a: seq<Request>, b: seq<Request>, i: nat)
    requires small.maxConnections <= large.maxConnections
    requires Keys(a) == Keys(b) && i < |a| == |b|
    requires UndisturbedRun(large, m, b) && PathsDistinct(large, Keys(b))
    ensures AliveToo(small, a, b, i)
  {
    hide HostTarget.Key, Keys, Serve, UndisturbedRun, PathsDistinct, RequestedWithin;
    SameKeysBefore(a, b, i);
    UndisturbedAt(large, m, b, i + 1);
    FewerDistinct(large, b, i + 1);
    assert b[..i + 1][..i] == b[..i];
    TrackedAreAlive(large, m, b[..i + 1]);
    if RequestedWithin(Keys(a[..i]), a[i].target.Key(), Capacity(small)) {
      RequestedWithinMore(Keys(a[..i]), a[i].target.Key(), Capacity(small), Capacity(large));
    }
  }

  /** Undisturbed and over distinct paths, a larger limit never lowers the number of reuses. */
  lemma UndisturbedReusesGrow(small: Config, large: Config, m: MetricsState, a: seq<Request>, b: seq<Request>)
    requires small.maxConnections <= large.maxConnections
    requires Keys(a) == Keys(b) && |a| == |b|
    requires ServedRun(small, m, a)
    requires UndisturbedRun(large, m, b) && PathsDistinct(large, Keys(b))
    ensures ReuseCount(small, m, a) <= ReuseCount(large, m, b)
  {
    hide HostTarget.Key, Keys, Serve, ServedRun, PathsDistinct, AliveToo, ReuseCount;
    forall i | 0 <= i < |a|
      ensures AliveToo(small, a, b, i)
    {
      AliveInLarger(small, large, m, a, b, i);
    }
    ReusesGrow(small, large, m, a, b);
  }

  lemma OneMoreUndisturbed(cfg: Config, m: MetricsState, before: seq<Request>, r: Request)
    requires UndisturbedRun(cfg, m, before)
    requires Served(cfg, Serve(cfg, m, before), r) && ExactProbe(Serve(cfg, m, before), r)
    requires LastRequestTime(before) < r.answers.at
    ensures UndisturbedRun(cfg, m, before + [r])
  {
    hide Serve, Served, ExactProbe;
    var requests := before + [r];
    assert requests[..|before|] == before;
    forall i | 0 <= i < |requests|
      ensures ExactProbe(Serve(cfg, m, requests[..i]), requests[i])
    {
      assert requests[..i] == before[..i];
    }
  }

  lemma NothingRequested(cfg: Config, m: MetricsState)
    ensures UndisturbedRun(cfg, m, [])
  {
  }

  /** Whatever is requested, the world can leave the daemon undisturbed. */
  lemma {:induction false} UndisturbedRunExists(cfg: Config, m: MetricsState, targets: seq<HostTarget>)
    returns (requests: seq<Request>)
    ensures |requests| == |targets| && forall i | 0 <= i < |targets| :: requests[i].target == targets[i]
    ensures UndisturbedRun(cfg, m, requests)
    ensures LastRequestTime(requests) == |requests| - 1
  {
    hide HostTarget.Key, HostTarget.Display, Ensure, IsLru, UndisturbedRun, Serve;
    if targets == [] {
      NothingRequested(cfg, m);
      requests := [];
    } else {
      var n := |targets| - 1;
      var before := UndisturbedRunExists(cfg, m, targets[..n]);
      var d, key := Serve(cfg, m, before), targets[n].Key();
      var alive := key in d.conns && d.conns[key].controlSocket in d.live;
      var checked := WithoutStale(d, key).conns;
      var victim := "";
      if checked != map[] {
        victim := LruExists(checked);
      }
      var r := Request(targets[n], victim, EnsureAnswers(alive, 0, true, None, Started(0), n, 0, Stored));
      OneMoreUndisturbed(cfg, m, before, r);
      requests := before + [r];
    }
  }

  // ---------------------------------------------------------------- a shared path

  /** The next request, for an untracked target. */
  lemma AsksFor(cfg: Config, m: MetricsState, before: seq<Request>, target: HostTarget, victim: string)
    returns (requests: seq<Request>)
    requires UndisturbedRun(cfg, m, before) && LastRequestTime(before) == |before| - 1
    requires var d := Serve(cfg, m, before);
             target.Key() !in d.conns && (|d.conns| >= cfg.maxConnections ==> VictimIsLru(d.conns, victim))
    ensures |requests| == |before| + 1 && requests[..|before|] == before && requests[|before|].target == target
    ensures UndisturbedRun(cfg, m, requests) && LastRequestTime(requests) == |before|
    ensures var key, d, d' := target.Key(), Serve(cfg, m, before), Serve(cfg, m, requests);
            var room := WithRoom(cfg, d, victim, true);
            && d'.conns == room.conns[key := NewConnection(target, cfg.pathOf(key), None, Some(0), |before|)]
            && d'.live == room.live + {cfg.pathOf(key)}
  {
    hide HostTarget.Key, HostTarget.Display, UndisturbedRun, IsLru, WithRoom;
    var r := Request(target, victim, EnsureAnswers(false, 0, true, None, Started(0), |before|, 0, Stored));
    OneMoreUndisturbed(cfg, m, before, r);
    requests := before + [r];
    assert requests[..|requests| - 1] == before;
  }

  /** The entry of the `i`-th request of such a run. */
  function EntryOf(cfg: Config, target: HostTarget, i: nat): ManagedConnection {
    NewConnection(target, cfg.pathOf(target.Key()), None, Some(0), i)
  }

  function TwoEntries(cfg: Config, a: HostTarget, i: nat, b: HostTarget, j: nat): Table {
    map[a.Key() := EntryOf(cfg, a, i), b.Key() := EntryOf(cfg, b, j)]
  }

  /** Two targets on one path, asked for in turn. */
  lemma TwoOnOnePath(cfg: Config, m: MetricsState, a: HostTarget, b: HostTarget) returns (requests: seq<Request>)
    requires cfg.maxConnections == 2 && a.Key() != b.Key() && cfg.pathOf(a.Key()) == cfg.pathOf(b.Key())
    ensures UndisturbedRun(cfg, m, requests) && LastRequestTime(requests) == 1
    ensures |requests| == 2 && requests[0].target == a && requests[1].target == b
    ensures var d := Serve(cfg, m, requests);
            d.conns == TwoEntries(cfg, a, 0, b, 1) && d.live == {cfg.pathOf(a.Key())}
  {
    hide HostTarget.Key, HostTarget.Display, UndisturbedRun, VictimIsLru;
    NothingRequested(cfg, m);
    var one := AsksFor(cfg, m, [], a, "");
    assert Serve(cfg, m, one).conns == map[a.Key() := EntryOf(cfg, a, 0)];
    requests := AsksFor(cfg, m, one, b, "");
  }

  lemma FirstIsVictim(cfg: Config, a: HostTarget, b: HostTarget)
    requires a.Key() != b.Key()
    ensures |TwoEntries(cfg, a, 0, b, 1)| == 2 && VictimIsLru(TwoEntries(cfg, a, 0, b, 1), a.Key())
    ensures TwoEntries(cfg, a, 0, b, 1) - {a.Key()} == map[b.Key() := EntryOf(cfg, b, 1)]
  {
    hide HostTarget.Key, HostTarget.Display;
    assert TwoEntries(cfg, a, 0, b, 1).Keys == {a.Key(), b.Key()};
  }

  /** A third target evicts the first of them, which stops the shared master. */
  lemma SharedMasterStopped(cfg: Config, m: MetricsState, a: HostTarget, b: HostTarget, c: HostTarget)
    returns (requests: seq<Request>)
    requires cfg.maxConnections == 2
    requires a.Key() != b.Key() && b.Key() != c.Key() && c.Key() != a.Key()
    requires cfg.pathOf(a.Key()) == cfg.pathOf(b.Key()) != cfg.pathOf(c.Key())
    ensures UndisturbedRun(cfg, m, requests) && LastRequestTime(requests) == 2
    ensures |requests| == 3
    ensures requests[0].target == a && requests[1].target == b && requests[2].target == c
    ensures var d := Serve(cfg, m, requests);
            d.conns == TwoEntries(cfg, b, 1, c, 2) && d.live == {cfg.pathOf(c.Key())}
  {
    hide HostTarget.Key, HostTarget.Display, UndisturbedRun, VictimIsLru, Serve, LastRequestTime;
    var two := TwoOnOnePath(cfg, m, a, b);
    FirstIsVictim(cfg, a, b);
    requests := AsksFor(cfg, m, two, c, a.Key());
    assert requests[0] == requests[..2][0] && requests[1] == requests[..2][1];
    var room := WithRoom(cfg, Serve(cfg, m, two), a.Key(), true);
    assert room.conns == map[b.Key() := EntryOf(cfg, b, 1)] && room.live == {};
  }

  /**
   Distinct paths matter to reuse: with a limit of 2 and two keys on one path, the key
   tracked second loses its master to the eviction of the first and is not reused.
   */
  lemma SharedPathEndsReuse(cfg: Config, m: MetricsState, a: HostTarget, b: HostTarget, c: HostTarget)
    returns (requests: seq<Request>)
    requires cfg.maxConnections == 2
    requires a.Key() != b.Key() && b.Key() != c.Key() && c.Key() != a.Key()
    requires cfg.pathOf(a.Key()) == cfg.pathOf(b.Key()) != cfg.pathOf(c.Key())
    ensures UndisturbedRun(cfg, m, requests) && Keys(requests) == [a.Key(), b.Key(), c.Key(), b.Key()]
    ensures RequestedWithin(Keys(requests[..3]), b.Key(), 2) && !LastReply(cfg, m, requests).reused
  {
    hide HostTarget.Key, HostTarget.Display, UndisturbedRun, ServedRun, Serve, Keys, RequestedWithin, Ensure, LastReply;
    var before := SharedMasterStopped(cfg, m, a, b, c);
    var r := Request(b, "", EnsureAnswers(false, 0, true, None, Started(0), 3, 0, Stored));
    OneMoreUndisturbed(cfg, m, before, r);
    requests := before + [r];
    assert requests[..3] == before;
    UndisturbedIsServed(cfg, m, requests);
    ReusedIff(cfg, m, requests);
    RequestedBeforeLast(a.Key(), b.Key(), c.Key());
    assert Keys(before) == [a.Key(), b.Key(), c.Key()];
  }

  lemma UndisturbedIsServed(cfg: Config, m: MetricsState, requests: seq<Request>)
    requires UndisturbedRun(cfg, m, requests)
    ensures ServedRun(cfg, m, requests)
  {
  }

  lemma RequestedBeforeLast(a: string, b: string, c: string)
    requires b != c
    ensures RequestedWithin([a, b, c], b, 2)
  {
    var since := [a, b, c][2..];
    assert since == [c] && KeySet(since) == {c};
    assert [a, b, c][1] == b && b !in [a, b, c][1 + 1..];
  }
}
