/** The connection manager: the table of managed control masters. */
module Connections {
  import opened Outcomes
  import opened Orders
  import opened Destination

  type Path = string

  datatype ManagedConnection = ManagedConnection(
    target: HostTarget,
    controlSocket: Path,
    pid: Option<nat>,
    createdAt: nat,
    lastUsed: nat,
    reusedCount: nat,
    healthy: bool,
    lastLatencyMs: Option<nat>)

  type Table = map<string, ManagedConnection>

  function NewConnection(target: HostTarget, socket: Path, pid: Option<nat>, latencyMs: Option<nat>, now: nat)
    : ManagedConnection
  {
    ManagedConnection(target, socket, pid, now, now, 0, true, latencyMs)
  }

  function WithReuse(m: Table, key: string, latencyMs: nat, now: nat): Table {
    if key in m
    then m[key := m[key].(reusedCount := m[key].reusedCount + 1, lastUsed := now,
                          lastLatencyMs := Some(latencyMs), healthy := true)]
    else m
  }

  function WithHealth(m: Table, key: string, healthy: bool): Table {
    if key in m then m[key := m[key].(healthy := healthy)] else m
  }

  function WithTouch(m: Table, key: string, now: nat): Table {
    if key in m then m[key := m[key].(lastUsed := now)] else m
  }

  /** A least recently used key; several share the title when they were last used in the same second. */
  ghost predicate IsLru(m: Table, key: string) {
    key in m && forall k | k in m :: m[key].lastUsed <= m[k].lastUsed
  }

  class ConnectionManager {
    var connections: Table

    constructor ()
      ensures connections == map[]
    {
      connections := map[];
    }

    function Len(): nat
      reads this
    {
      |connections|
    }

    function SocketFor(key: string): Option<Path>
      reads this
    {
      if key in connections then Some(connections[key].controlSocket) else None
    }

    function GetClone(key: string): Option<ManagedConnection>
      reads this
    {
      if key in connections then Some(connections[key]) else None
    }

    method InsertNew(key: string, target: HostTarget, controlSocket: Path, pid: Option<nat>, latencyMs: Option<nat>,
                     now: nat)
      modifies this
      ensures connections == old(connections)[key := NewConnection(target, controlSocket, pid, latencyMs, now)]
    {
      connections := connections[key := ManagedConnection(target, controlSocket, pid, now, now, 0, true, latencyMs)];
    }

    method MarkReused(key: string, latencyMs: nat, now: nat)
      modifies this
      ensures connections == WithReuse(old(connections), key, latencyMs, now)
    {
      if key in connections {
        var c := connections[key];
        c := c.(reusedCount := c.reusedCount + 1);
        c := c.(lastUsed := now);
        c := c.(lastLatencyMs := Some(latencyMs));
        c := c.(healthy := true);
        connections := connections[key := c];
      }
    }

    method MarkHealthy(key: string, healthy: bool)
      modifies this
      ensures connections == WithHealth(old(connections), key, healthy)
    {
      if key in connections {
        connections := connections[key := connections[key].(healthy := healthy)];
      }
    }

    method Touch(key: string, now: nat)
      modifies this
      ensures connections == WithTouch(old(connections), key, now)
    {
      if key in connections {
        connections := connections[key := connections[key].(lastUsed := now)];
      }
    }

    method Remove(key: string) returns (removed: Option<ManagedConnection>)
      modifies this
      ensures removed == if key in old(connections) then Some(old(connections)[key]) else None
      ensures connections == old(connections) - {key}
    {
      if key in connections {
        removed := Some(connections[key]);
        connections := connections - {key};
      } else {
        removed := None;
      }
    }

    method AllKeys() returns (order: seq<string>)
      ensures Enumerates(order, connections)
    {
      order := [];
      var rest := connections.Keys;
      while rest != {}
        invariant rest <= connections.Keys
        invariant forall k :: k in connections <==> k in order || k in rest
        invariant forall k | k in order :: k !in rest
        invariant Distinct(order)
        decreases |rest|
      {
        var k :| k in rest;
        order, rest := order + [k], rest - {k};
      }
    }

    /** Walks the table in some order and keeps the first entry with the smallest `lastUsed`. */
    method LeastRecentlyUsed() returns (victim: Option<string>)
      ensures victim.None? <==> connections == map[]
      ensures victim.Some? ==> IsLru(connections, victim.value)
    {
      victim := None;
      var rest := connections.Keys;
      while rest != {}
        invariant rest <= connections.Keys
        invariant victim.None? <==> rest == connections.Keys
        invariant victim.Some? ==> victim.value in connections && victim.value !in rest
        invariant victim.Some? ==>
                    forall k | k in connections && k !in rest ::
                      connections[victim.value].lastUsed <= connections[k].lastUsed
        decreases |rest|
      {
        var k :| k in rest;
        if victim.None? || connections[k].lastUsed < connections[victim.value].lastUsed {
          victim := Some(k);
        }
        rest := rest - {k};
      }
    }
  }
}

/** Timestamps against a move-to-front list. */
module ConnectionsTheorems {
  import opened Outcomes
  import opened Orders
  import opened Destination
  import opened Connections
  import opened Recency

  datatype ManagerOp =
    | Insert(key: string, target: HostTarget, socket: Path, pid: Option<nat>, latencyMs: Option<nat>, at: nat)
    | Reuse(key: string, reuseMs: nat, at: nat)
    | Touch(key: string, at: nat)
    | MarkHealthy(key: string, healthy: bool)
    | Remove(key: string)

  predicate ReadsClock(op: ManagerOp) {
    op.Insert? || op.Reuse? || op.Touch?
  }

  function ApplyOp(m: Table, op: ManagerOp): Table {
    match op
    case Insert(key, target, socket, pid, latencyMs, at) => m[key := NewConnection(target, socket, pid, latencyMs, at)]
    case Reuse(key, latencyMs, at) => WithReuse(m, key, latencyMs, at)
    case Touch(key, at) => WithTouch(m, key, at)
    case MarkHealthy(key, healthy) => WithHealth(m, key, healthy)
    case Remove(key) => m - {key}
  }

  function TableAfter(ops: seq<ManagerOp>): Table {
    if ops == [] then map[]
    else ApplyOp(TableAfter(ops[..|ops| - 1]), ops[|ops| - 1])
  }

  // ---------------------------------------------------------------- entries against the operations

  /** The insertion an entry goes back to, if the key was not removed since. */
  function InsertOf(ops: seq<ManagerOp>, key: string): (r: Option<ManagerOp>)
    ensures r.Some? ==> r.value.Insert?
  {
    if ops == [] then None
    else
      var op := ops[|ops| - 1];
      if op.key == key && op.Insert? then Some(op)
      else if op.key == key && op.Remove? then None
      else InsertOf(ops[..|ops| - 1], key)
  }

  function UsedAt(ops: seq<ManagerOp>, key: string): nat {
    if ops == [] then 0
    else if ops[|ops| - 1].key == key && ReadsClock(ops[|ops| - 1]) then ops[|ops| - 1].at
    else UsedAt(ops[..|ops| - 1], key)
  }

  function ReusesSince(ops: seq<ManagerOp>, key: string): nat {
    if ops == [] || (ops[|ops| - 1].key == key && ops[|ops| - 1].Insert?) then 0
    else
      var op := ops[|ops| - 1];
      ReusesSince(ops[..|ops| - 1], key) + if op.key == key && op.Reuse? then 1 else 0
  }

  function HealthyAfter(ops: seq<ManagerOp>, key: string): bool {
    if ops == [] then true
    else
      var op := ops[|ops| - 1];
      if op.key == key && (op.Insert? || op.Reuse?) then true
      else if op.key == key && op.MarkHealthy? then op.healthy
      else HealthyAfter(ops[..|ops| - 1], key)
  }

  function LatencyAfter(ops: seq<ManagerOp>, key: string): Option<nat> {
    if ops == [] then None
    else
      var op := ops[|ops| - 1];
      if op.key == key && op.Insert? then op.latencyMs
      else if op.key == key && op.Reuse? then Some(op.reuseMs)
      else LatencyAfter(ops[..|ops| - 1], key)
  }

  /** What the operations say about the entry that goes back to `insert`. */
  function EntryAfter(ops: seq<ManagerOp>, insert: ManagerOp): ManagedConnection
    requires insert.Insert?
  {
    ManagedConnection(insert.target, insert.socket, insert.pid, insert.at, UsedAt(ops, insert.key),
                      ReusesSince(ops, insert.key), HealthyAfter(ops, insert.key), LatencyAfter(ops, insert.key))
  }

  /** Over every run each entry is there since its insertion, and every field is the one the operations say. */
  lemma {:induction false} EntriesOfRun(ops: seq<ManagerOp>, key: string)
    ensures key in TableAfter(ops) <==> InsertOf(ops, key).Some?
    ensures InsertOf(ops, key).Some? ==>
              InsertOf(ops, key).value.key == key &&
              TableAfter(ops)[key] == EntryAfter(ops, InsertOf(ops, key).value)
  {
    if ops != [] {
      EntriesOfRun(ops[..|ops| - 1], key);
    }
  }

  // ---------------------------------------------------------------- the move-to-front list

  /** The reference list: inserts, reuses and touches move to the front, health marks do not. */
  function ListAfter(ops: seq<ManagerOp>): seq<string> {
    if ops == [] then []
    else
      var list, op := ListAfter(ops[..|ops| - 1]), ops[|ops| - 1];
      if op.Insert? || ((op.Reuse? || op.Touch?) && op.key in list) then MoveToFront(list, op.key)
      else if op.Remove? then Without(list, op.key)
      else list
  }

  /** The latest clock reading, -1 before the first. */
  function Clock(ops: seq<ManagerOp>): int {
    if ops == [] then -1
    else if ReadsClock(ops[|ops| - 1]) then ops[|ops| - 1].at
    else Clock(ops[..|ops| - 1])
  }

  /** Clock readings never run back; with `strict`, no two are equal. */
  predicate Timed(ops: seq<ManagerOp>, strict: bool) {
    ops == [] ||
    var before, op := ops[..|ops| - 1], ops[|ops| - 1];
    && Timed(before, strict)
    && (ReadsClock(op) ==> Clock(before) <= op.at && (strict ==> Clock(before) < op.at))
  }

  /** The list is ordered by last use, most recent first. */
  ghost predicate ByLastUse(list: seq<string>, m: Table, strict: bool) {
    forall i, j | 0 <= i < j < |list| && list[i] in m && list[j] in m ::
      && m[list[i]].lastUsed >= m[list[j]].lastUsed
      && (strict ==> m[list[i]].lastUsed > m[list[j]].lastUsed)
  }

  lemma {:induction false} WithoutOrder(list: seq<string>, key: string, i: nat, j: nat) returns (i': nat, j': nat)
    requires i < j < |Without(list, key)|
    ensures i' < j' < |list| && list[i'] == Without(list, key)[i] && list[j'] == Without(list, key)[j]
  {
    var rest := Without(list[1..], key);
    if list[0] == key {
      i', j' := WithoutOrder(list[1..], key, i, j);
      i', j' := i' + 1, j' + 1;
    } else if i == 0 {
      assert rest[j - 1] in rest;
      var n := IndexIn(list[1..], rest[j - 1]);
      i', j' := 0, n + 1;
    } else {
      i', j' := WithoutOrder(list[1..], key, i - 1, j - 1);
      i', j' := i' + 1, j' + 1;
    }
  }

  lemma IndexIn(list: seq<string>, key: string) returns (i: nat)
    requires key in list
    ensures i < |list| && list[i] == key
  {
    i :| 0 <= i < |list| && list[i] == key;
  }

  lemma WithoutByLastUse(list: seq<string>, key: string, m: Table, strict: bool)
    requires ByLastUse(list, m, strict)
    ensures ByLastUse(Without(list, key), m, strict)
  {
    var w := Without(list, key);
    forall i, j | 0 <= i < j < |w| && w[i] in m && w[j] in m
      ensures m[w[i]].lastUsed >= m[w[j]].lastUsed && (strict ==> m[w[i]].lastUsed > m[w[j]].lastUsed)
    {
      var i', j' := WithoutOrder(list, key, i, j);
    }
  }

  /** Using `key` at a time not before every recorded use puts it in front. */
  lemma UseMovesToFront(list: seq<string>, m: Table, key: string, c: ManagedConnection, strict: bool)
    requires ByLastUse(list, m, strict)
    requires forall k | k in m :: m[k].lastUsed <= c.lastUsed && (strict ==> m[k].lastUsed < c.lastUsed)
    ensures ByLastUse(MoveToFront(list, key), m[key := c], strict)
  {
    WithoutByLastUse(list, key, m, strict);
    var w := Without(list, key);
    forall i | 0 <= i < |w|
      ensures w[i] != key
    {
      assert w[i] in w;
    }
  }

  /** What the timestamps keep over every run of the manager. */
  ghost predicate Tracks(list: seq<string>, m: Table, clock: int, strict: bool) {
    && Distinct(list)
    && (forall k :: k in list <==> k in m)
    && ByLastUse(list, m, strict)
    && (forall k | k in m :: m[k].createdAt <= m[k].lastUsed <= clock)
  }

  lemma UseStep(list: seq<string>, m: Table, clock: int, strict: bool, key: string, c: ManagedConnection)
    requires Tracks(list, m, clock, strict)
    requires clock <= c.lastUsed && (strict ==> clock < c.lastUsed) && c.createdAt <= c.lastUsed
    ensures Tracks(MoveToFront(list, key), m[key := c], c.lastUsed, strict)
  {
    UseMovesToFront(list, m, key, c, strict);
    MoveToFrontDistinct(list, key);
  }

  lemma RemoveStep(list: seq<string>, m: Table, clock: int, strict: bool, key: string)
    requires Tracks(list, m, clock, strict)
    ensures Tracks(Without(list, key), m - {key}, clock, strict)
  {
    WithoutByLastUse(list, key, m, strict);
    WithoutDistinct(list, key);
  }

  lemma HealthStep(list: seq<string>, m: Table, clock: int, strict: bool, key: string, healthy: bool)
    requires Tracks(list, m, clock, strict)
    ensures Tracks(list, WithHealth(m, key, healthy), clock, strict)
  {
    var m' := WithHealth(m, key, healthy);
    assert forall k | k in m :: m'[k].lastUsed == m[k].lastUsed && m'[k].createdAt == m[k].createdAt;
  }

  lemma {:induction false} TimestampsTrackList(ops: seq<ManagerOp>, strict: bool)
    requires Timed(ops, strict)
    ensures Tracks(ListAfter(ops), TableAfter(ops), Clock(ops), strict)
  {
    if ops != [] {
      var before, op := ops[..|ops| - 1], ops[|ops| - 1];
      TimestampsTrackList(before, strict);
      var list, m, clock := ListAfter(before), TableAfter(before), Clock(before);
      match op {
        case Insert(key, target, socket, pid, latencyMs, at) =>
          UseStep(list, m, clock, strict, key, NewConnection(target, socket, pid, latencyMs, at));
        case Reuse(key, _, at) =>
          if key in m {
            UseStep(list, m, clock, strict, key, ApplyOp(m, op)[key]);
          }
        case Touch(key, at) =>
          if key in m {
            UseStep(list, m, clock, strict, key, ApplyOp(m, op)[key]);
          }
        case MarkHealthy(key, healthy) =>
          HealthStep(list, m, clock, strict, key, healthy);
        case Remove(key) =>
          RemoveStep(list, m, clock, strict, key);
      }
    }
  }

  /**
   With a strictly increasing clock the eviction victim is the tail of the
   move-to-front list; with equal readings allowed the tail is still a victim.
   Every entry was created no later than it was used, and used no later than now.
   */
  lemma LruIsTail(ops: seq<ManagerOp>, strict: bool)
    requires Timed(ops, strict)
    ensures var list, m := ListAfter(ops), TableAfter(ops);
            && (list == [] <==> m == map[])
            && (list != [] ==> IsLru(m, list[|list| - 1]))
            && (strict && list != [] ==> forall k :: IsLru(m, k) <==> k == list[|list| - 1])
            && (forall k | k in m :: m[k].createdAt <= m[k].lastUsed <= Clock(ops))
  {
    TimestampsTrackList(ops, strict);
    var list, m := ListAfter(ops), TableAfter(ops);
    assert m.Keys == KeySet(list);
    if list != [] {
      TailIsLru(list, m, Clock(ops), strict);
    }
  }

  lemma RemovalShrinks(m: Table, key: string)
    ensures |m - {key}| == |m| - if key in m then 1 else 0
  {
    assert (m - {key}).Keys == m.Keys - {key};
    assert |m - {key}| == |(m - {key}).Keys| && |m| == |m.Keys|;
  }

  /** A nonempty table has an eviction victim. */
  lemma {:induction false} LruExists(m: Table) returns (victim: string)
    requires m != map[]
    ensures IsLru(m, victim)
    decreases |m|
  {
    victim :| victim in m;
    var others := m - {victim};
    RemovalShrinks(m, victim);
    if others != map[] {
      var w := LruExists(others);
      if m[w].lastUsed < m[victim].lastUsed {
        assert forall k | k in m && k != victim :: k in others;
        victim := w;
      } else {
        assert forall k | k in m && k != victim :: k in others;
      }
    }
  }

  lemma TailIsLru(list: seq<string>, m: Table, clock: int, strict: bool)
    requires Tracks(list, m, clock, strict) && list != []
    ensures IsLru(m, list[|list| - 1])
    ensures strict ==> forall k :: IsLru(m, k) <==> k == list[|list| - 1]
  {
    var tail := list[|list| - 1];
    assert tail in list;
    forall k | k in m
      ensures m[tail].lastUsed <= m[k].lastUsed && (strict && k != tail ==> m[tail].lastUsed < m[k].lastUsed)
    {
      var i := IndexIn(list, k);
    }
  }
}
