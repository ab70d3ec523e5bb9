/** Faithful interleaved runs, and how far the capacity bound is reached. */
module InterleavingRuns {
  import opened Outcomes
  import opened Destination
  import opened Connections
  import opened ConnectionsTheorems
  import opened Daemon
  import opened Interleaving
  import opened InterleavingTheorems

  // ---------------------------------------------------------------- reachable states

  /** Probes report the truth, stops succeed and registrations arrive. */
  ghost predicate FaithfulStep(s: System, step: Step) {
    match step
    case SessionStep(who, act) =>
      && (who < |s.sessions| && s.sessions[who].Probing? && act.ProbeAnswers? ==>
            (act.alive <==> s.sessions[who].existing in s.live))
      && (act.StopVictim? ==> act.stopped)
      && !act.LoseRegistration?
    case HealthStep(act) =>
      s.health.CheckingEntry? && act.EntryAnswers? ==> (act.alive <==> s.health.conn.controlSocket in s.live)
    case CloseStops(_, stopped) => stopped
    case _ => true
  }

  ghost predicate FaithfulSteps(cfg: Config, k: nat, steps: seq<Step>) {
    steps == [] ||
    var n := |steps| - 1;
    FaithfulSteps(cfg, k, steps[..n]) && FaithfulStep(Run(cfg, k, steps[..n]), steps[n])
  }

  ghost predicate Reachable(cfg: Config, k: nat, s: System) {
    exists steps :: Run(cfg, k, steps) == s && FaithfulSteps(cfg, k, steps)
  }

  lemma InitialReachable(cfg: Config, k: nat)
    ensures Reachable(cfg, k, Initial(k))
  {
    assert Run(cfg, k, []) == Initial(k);
    assert FaithfulSteps(cfg, k, []);
  }

  lemma Go(cfg: Config, k: nat, s: System, step: Step) returns (s': System)
    requires Reachable(cfg, k, s) && FaithfulStep(s, step)
    ensures s' == Next(cfg, s, step) && Reachable(cfg, k, s')
  {
    hide Next, FaithfulStep;
    s' := Next(cfg, s, step);
    var steps :| Run(cfg, k, steps) == s && FaithfulSteps(cfg, k, steps);
    var longer := steps + [step];
    assert longer[..|longer| - 1] == steps;
    assert Run(cfg, k, longer) == s' && FaithfulSteps(cfg, k, longer);
  }

  /** A step of one session that neither probes nor fails. */
  lemma GoAt(cfg: Config, k: nat, s: System, i: nat, act: Act) returns (s': System)
    requires Reachable(cfg, k, s) && i < |s.sessions|
    requires !s.sessions[i].Probing? && (act.StopVictim? ==> act.stopped) && !act.LoseRegistration?
    ensures Reachable(cfg, k, s')
    ensures var v := ActOn(cfg, View(s.sessions[i], s.conns, s.live, s.missed), act);
            s' == s.(conns := v.conns, sessions := s.sessions[i := v.session], live := v.live, missed := v.missed)
  {
    hide ActOn, Reachable;
    s' := Go(cfg, k, s, SessionStep(i, act));
  }

  // ---------------------------------------------------------------- the bound is attained

  /** All sessions idle, with so many entries and misses. */
  ghost predicate Quiet(s: System, k: nat, entries: nat, misses: nat) {
    s.sessions == AllIdle(k) && |s.conns| == entries && s.missed == misses
  }

  function Repeat(n: nat): (r: string)
    ensures |r| == n
  {
    if n == 0 then "" else Repeat(n - 1) + "h"
  }

  /** A destination whose key has length `n + 2`. */
  function HostOfLength(n: nat): HostTarget {
    HostTarget(None, Repeat(n), None)
  }

  lemma KeyLength(n: nat)
    ensures |HostOfLength(n).Key()| == n + 2
  {
  }

  /** Every tracked key is shorter than the keys of `HostOfLength(n)` and longer hosts. */
  ghost predicate KeysBelow(m: Table, n: nat) {
    forall k | k in m :: |k| < n + 2
  }

  lemma {:induction false} LongestKey(m: Table) returns (n: nat)
    ensures KeysBelow(m, n)
    decreases |m|
  {
    if m == map[] {
      n := 0;
    } else {
      var k :| k in m;
      RemovalShrinks(m, k);
      n := LongestKey(m - {k});
      assert forall j | j in m && j != k :: j in m - {k};
      if |k| > n {
        n := |k|;
      }
    }
  }

  lemma FreshHost(m: Table, n: nat, i: nat)
    requires KeysBelow(m, n)
    ensures HostOfLength(n + i).Key() !in m
  {
    KeyLength(n + i);
  }

  lemma FreshInsertion(m: Table, key: string, c: ManagedConnection)
    requires key !in m
    ensures |m[key := c]| == |m| + 1
  {
    assert m[key := c] - {key} == m;
    RemovalShrinks(m[key := c], key);
  }

  /** An idle session asks for an untracked target and runs alone through the capacity check. */
  lemma Checks(cfg: Config, k: nat, s: System, i: nat, target: HostTarget) returns (s': System)
    requires Reachable(cfg, k, s) && i < |s.sessions| && s.sessions[i] == Idle && target.Key() !in s.conns
    ensures Reachable(cfg, k, s')
    ensures var next := if |s.conns| >= cfg.maxConnections then ChoosingVictim(target) else Starting(target);
            s' == s.(sessions := s.sessions[i := next])
  {
    hide HostTarget.Key, HostTarget.Display, Reachable;
    var s1 := GoAt(cfg, k, s, i, Begin(target));
    var s2 := GoAt(cfg, k, s1, i, LookUp);
    s' := GoAt(cfg, k, s2, i, CheckRoom);
  }

  /** Below the limit, or with nothing to evict, the session passes. */
  lemma Passes(cfg: Config, k: nat, s: System, i: nat, target: HostTarget) returns (s': System)
    requires Reachable(cfg, k, s) && i < |s.sessions| && s.sessions[i] == Idle && target.Key() !in s.conns
    requires |s.conns| < Capacity(cfg)
    ensures Reachable(cfg, k, s')
    ensures s' == s.(sessions := s.sessions[i := Starting(target)])
  {
    hide HostTarget.Key, HostTarget.Display, Reachable;
    s' := Checks(cfg, k, s, i, target);
    if |s.conns| >= cfg.maxConnections {
      assert s.conns == map[];
      s' := GoAt(cfg, k, s', i, ChooseVictim(None));
    }
  }

  lemma Inserts(cfg: Config, k: nat, s: System, i: nat, target: HostTarget) returns (s': System)
    requires Reachable(cfg, k, s) && i < |s.sessions| && s.sessions[i] == Starting(target) && target.Key() !in s.conns
    ensures Reachable(cfg, k, s')
    ensures s'.sessions == s.sessions[i := Idle] && s'.missed == s.missed && |s'.conns| == |s.conns| + 1
    ensures s'.conns.Keys == s.conns.Keys + {target.Key()}
  {
    hide HostTarget.Key, HostTarget.Display, Reachable;
    var s1 := GoAt(cfg, k, s, i, StartAnswers(Started(0)));
    var s2 := GoAt(cfg, k, s1, i, InsertEntry(0));
    FreshInsertion(s.conns, target.Key(), s2.conns[target.Key()]);
    s' := GoAt(cfg, k, s2, i, Leave);
  }

  /** The sessions from `from` up to `to` have passed the check, each with its own target. */
  function Passed(k: nat, from: nat, to: nat, n: nat): (r: seq<Session>)
    ensures |r| == k
  {
    seq(k, i requires 0 <= i => if from <= i < to then Starting(HostOfLength(n + i)) else Idle)
  }

  /** On a table with room for one, the first `j` sessions all pass before any inserts. */
  lemma {:induction false} AllPass(cfg: Config, k: nat, s: System, n: nat, j: nat) returns (s': System)
    requires Reachable(cfg, k, s) && s.sessions == AllIdle(k) && j <= k
    requires |s.conns| < Capacity(cfg) && KeysBelow(s.conns, n)
    ensures Reachable(cfg, k, s') && s' == s.(sessions := Passed(k, 0, j, n))
  {
    hide HostTarget.Key, HostTarget.Display, Reachable;
    if j == 0 {
      s' := s;
      assert s.sessions == Passed(k, 0, 0, n);
    } else {
      var s1 := AllPass(cfg, k, s, n, j - 1);
      FreshHost(s.conns, n, j - 1);
      s' := Passes(cfg, k, s1, j - 1, HostOfLength(n + j - 1));
      assert s'.sessions == Passed(k, 0, j, n);
    }
  }

  lemma OneMoreInserted(k: nat, j: nat, up: nat, n: nat)
    requires j < up <= k
    ensures Passed(k, j, up, n)[j] == Starting(HostOfLength(n + j))
    ensures Passed(k, j, up, n)[j := Idle] == Passed(k, j + 1, up, n)
  {
    hide HostOfLength;
  }

  lemma KeysGrow(m: Table, m': Table, n: nat)
    requires KeysBelow(m, n) && m'.Keys == m.Keys + {HostOfLength(n).Key()}
    ensures KeysBelow(m', n + 1)
  {
    KeyLength(n);
    forall k | k in m'
      ensures |k| < n + 3
    {
      assert k in m'.Keys;
    }
  }

  lemma NextInserts(cfg: Config, k: nat, s: System, j: nat, n: nat) returns (s': System)
    requires Reachable(cfg, k, s) && KeysBelow(s.conns, n)
    requires j < |s.sessions| && s.sessions[j] == Starting(HostOfLength(n))
    ensures Reachable(cfg, k, s') && s'.sessions == s.sessions[j := Idle]
    ensures |s'.conns| == |s.conns| + 1 && s'.missed == s.missed && KeysBelow(s'.conns, n + 1)
  {
    hide *;
    FreshHost(s.conns, n, 0);
    s' := Inserts(cfg, k, s, j, HostOfLength(n));
    KeysGrow(s.conns, s'.conns, n);
  }

  /** Then the first `j` of `up` insert, one after the other. */
  lemma {:induction false} AllInsert(cfg: Config, k: nat, s: System, n: nat, up: nat, j: nat) returns (s': System)
    requires Reachable(cfg, k, s) && s.sessions == Passed(k, 0, up, n) && KeysBelow(s.conns, n) && j <= up <= k
    ensures Reachable(cfg, k, s') && s'.sessions == Passed(k, j, up, n)
    ensures |s'.conns| == |s.conns| + j && s'.missed == s.missed && KeysBelow(s'.conns, n + j)
    decreases j
  {
    hide *;
    if j == 0 {
      s' := s;
    } else {
      var s1 := AllInsert(cfg, k, s, n, up, j - 1);
      OneMoreInserted(k, j - 1, up, n);
      s' := NextInserts(cfg, k, s1, j - 1, n + j - 1);
    }
  }

  lemma {:induction false} FillTo(cfg: Config, k: nat, n: nat) returns (s: System)
    requires n < Capacity(cfg) && k > 0
    ensures Reachable(cfg, k, s) && Quiet(s, k, n, 0)
  {
    hide HostTarget.Key, HostTarget.Display, Reachable;
    if n == 0 {
      InitialReachable(cfg, k);
      s := Initial(k);
    } else {
      var s0 := FillTo(cfg, k, n - 1);
      var h := LongestKey(s0.conns);
      var s1 := AllPass(cfg, k, s0, h, 1);
      s := AllInsert(cfg, k, s1, h, 1, 1);
      assert s.sessions == AllIdle(k);
    }
  }

  /** All sessions find the last free place. */
  lemma Overfill(cfg: Config, k: nat) returns (s: System)
    requires k > 0
    ensures Reachable(cfg, k, s) && Quiet(s, k, Capacity(cfg) - 1 + k, 0)
  {
    hide HostTarget.Key, HostTarget.Display, Reachable;
    var s0 := FillTo(cfg, k, Capacity(cfg) - 1);
    var n := LongestKey(s0.conns);
    var s1 := AllPass(cfg, k, s0, n, k);
    s := AllInsert(cfg, k, s1, n, k, k);
    assert s.sessions == AllIdle(k);
  }

  /** The first two sessions choose the same victim; the second finds it gone. */
  lemma SharedVictim(cfg: Config, k: nat, s: System, a: HostTarget, b: HostTarget) returns (s': System)
    requires Reachable(cfg, k, s) && |s.sessions| >= 2 && s.conns != map[]
    requires s.sessions[0] == ChoosingVictim(a) && s.sessions[1] == ChoosingVictim(b)
    ensures Reachable(cfg, k, s') && s'.sessions == s.sessions[0 := Starting(a)][1 := Starting(b)]
    ensures s'.missed == s.missed + 1 && |s'.conns| == |s.conns| - 1 && s'.conns.Keys <= s.conns.Keys
  {
    hide HostTarget.Key, HostTarget.Display, Reachable;
    var victim := LruExists(s.conns);
    var s1 := GoAt(cfg, k, s, 0, ChooseVictim(Some(victim)));
    var s2 := GoAt(cfg, k, s1, 1, ChooseVictim(Some(victim)));
    var s3 := GoAt(cfg, k, s2, 0, RemoveVictim);
    RemovalShrinks(s.conns, victim);
    var s4 := GoAt(cfg, k, s3, 1, RemoveVictim);
    s' := GoAt(cfg, k, s4, 0, StopVictim(true));
  }

  /** One more round in which two sessions pick the same victim leaves one more entry. */
  lemma Drift(cfg: Config, k: nat, s: System, entries: nat, misses: nat) returns (s': System)
    requires k >= 2 && Reachable(cfg, k, s) && Quiet(s, k, entries, misses)
    requires entries >= cfg.maxConnections && entries > 0
    ensures Reachable(cfg, k, s') && Quiet(s', k, entries + 1, misses + 1)
  {
    hide HostTarget.Key, HostTarget.Display, Reachable, HostOfLength;
    var n := LongestKey(s.conns);
    var a, b := HostOfLength(n), HostOfLength(n + 1);
    FreshHost(s.conns, n, 0);
    FreshHost(s.conns, n, 1);
    var s1 := Checks(cfg, k, s, 0, a);
    var s2 := Checks(cfg, k, s1, 1, b);
    assert s.conns != map[];
    var s3 := SharedVictim(cfg, k, s2, a, b);
    assert s3.sessions == Passed(k, 0, 2, n);
    s' := AllInsert(cfg, k, s3, n, 2, 2);
    assert s'.sessions == AllIdle(k);
  }

  /**
   The capacity bound is exact for every number of sessions: each number of misses is
   attained with the bound met by entries alone, so for two sessions or more
   `maxConnections` bounds nothing.
   */
  lemma {:induction false} BoundAttained(cfg: Config, k: nat, misses: nat) returns (s: System)
    requires k > 0 && (k == 1 ==> misses == 0)
    ensures Reachable(cfg, k, s)
    ensures s.missed == misses && s.sessions == AllIdle(k)
    ensures |s.conns| == Capacity(cfg) + k - 1 + misses
  {
    hide HostTarget.Key, HostTarget.Display, Reachable;
    if misses == 0 {
      s := Overfill(cfg, k);
    } else {
      var before := BoundAttained(cfg, k, misses - 1);
      s := Drift(cfg, k, before, |before.conns|, misses - 1);
    }
  }

  /** In no interleaving, however masters die and probes err, are there more entries. */
  ghost predicate NeverMoreThan(cfg: Config, k: nat, limit: nat) {
    forall steps :: |Run(cfg, k, steps).conns| <= limit
  }

  /**
   `maxConnections` is kept exactly with at most one session at a time; with two or
   more no limit whatever is kept.
   */
  lemma LimitKeptIff(cfg: Config, k: nat)
    ensures NeverMoreThan(cfg, k, Capacity(cfg)) <==> k <= 1
    ensures (exists limit :: NeverMoreThan(cfg, k, limit)) <==> k <= 1
  {
    hide Run;
    if k <= 1 {
      forall steps
        ensures |Run(cfg, k, steps).conns| <= Capacity(cfg)
      {
        if k == 0 {
          NothingTracked(cfg, steps);
        } else {
          SerialCapacity(cfg, steps);
        }
      }
      assert NeverMoreThan(cfg, k, Capacity(cfg));
    } else {
      forall limit
        ensures !NeverMoreThan(cfg, k, limit)
      {
        var s := BoundAttained(cfg, k, limit);
        var steps :| Run(cfg, k, steps) == s;
        assert |Run(cfg, k, steps).conns| > limit;
      }
    }
  }
}
