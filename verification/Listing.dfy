/** The most used hosts of a snapshot, over every iteration order of the per-host map. */
module Listing {
  import opened Orders
  import opened Ranking
  import opened Metrics

  /** The hosts of an iteration order with more than `n` connections. */
  function HostsAbove(order: seq<string>, m: map<string, HostStat>, n: int): (r: set<string>)
    requires forall k | k in order :: k in m
    ensures forall k :: k in r <==> k in order && m[k].connections > n
  {
    if order == [] then {}
    else
      assert order == [order[0]] + order[1..];
      (if m[order[0]].connections > n then {order[0]} else {}) + HostsAbove(order[1..], m, n)
  }

  lemma {:induction false} AboveIsCardinality(order: seq<string>, m: map<string, HostStat>, n: nat)
    requires forall k | k in order :: k in m
    requires Distinct(order)
    ensures Above(Entries(order, m), n) == |HostsAbove(order, m, n)|
  {
    if order != [] {
      var rest := order[1..];
      AboveIsCardinality(rest, m, n);
      assert Entries(order, m)[1..] == Entries(rest, m);
      assert order[0] !in HostsAbove(rest, m, n);
    }
  }

  lemma {:induction false} OrderLength(order: seq<string>, m: map<string, HostStat>)
    requires forall k | k in order :: k in m
    requires Distinct(order)
    ensures |order| == |HostsAbove(order, m, -1)|
  {
    if order != [] {
      OrderLength(order[1..], m);
      assert order[0] !in HostsAbove(order[1..], m, -1);
    }
  }

  lemma EntryCount(order: seq<string>, m: map<string, HostStat>)
    requires Enumerates(order, m)
    ensures |Entries(order, m)| == |m|
  {
    OrderLength(order, m);
    assert HostsAbove(order, m, -1) == m.Keys;
  }

  /** The ranking lists min(5, hosts) entries, largest first, and no unlisted host exceeds a listed one. */
  lemma MostUsedHosts(s: MetricsState, order: seq<string>)
    requires Enumerates(order, s.perHost)
    ensures |SnapshotOf(s, order).mostUsedHosts| == (if |s.perHost| < 5 then |s.perHost| else 5)
    ensures exists omitted :: Ranks(SnapshotOf(s, order).mostUsedHosts, omitted, Entries(order, s.perHost))
  {
    var entries := Entries(order, s.perHost);
    EntryCount(order, s.perHost);
    TopFiveIsLargest(entries);
    var top := SnapshotOf(s, order).mostUsedHosts;
    assert top == TopFive(entries);
    assert Ranks(top, Omitted(entries), entries);
  }

  lemma AboveOrderFree(m: map<string, HostStat>, order: seq<string>, other: seq<string>, n: nat)
    requires Enumerates(order, m) && Enumerates(other, m)
    ensures Above(Entries(order, m), n) == Above(Entries(other, m), n)
  {
    AboveIsCardinality(order, m, n);
    AboveIsCardinality(other, m, n);
    assert HostsAbove(order, m, n) == HostsAbove(other, m, n);
  }

  /** The listed counts do not depend on the iteration order of the map. */
  lemma MostUsedCountsOrderFree(s: MetricsState, order: seq<string>, other: seq<string>)
    requires Enumerates(order, s.perHost) && Enumerates(other, s.perHost)
    ensures var a, b := SnapshotOf(s, order).mostUsedHosts, SnapshotOf(s, other).mostUsedHosts;
            |a| == |b| && forall i | 0 <= i < |a| :: a[i].1 == b[i].1
  {
    EntryCount(order, s.perHost);
    EntryCount(other, s.perHost);
    forall n: nat
      ensures Above(Entries(order, s.perHost), n) == Above(Entries(other, s.perHost), n)
    {
      AboveOrderFree(s.perHost, order, other, n);
    }
    TopFiveCountsOrderFree(Entries(order, s.perHost), Entries(other, s.perHost));
  }

  /** The hosts with more than `n` connections. */
  function HostsWithMore(m: map<string, HostStat>, n: nat): set<string> {
    set k | k in m && m[k].connections > n
  }

  /** Hosts tied under different labels are all beyond the fifth place. */
  ghost predicate TiesUnlisted(m: map<string, HostStat>) {
    forall a, b | a in m && b in m && m[a].connections == m[b].connections && m[a].hostLabel != m[b].hostLabel ::
      |HostsWithMore(m, m[a].connections)| >= 5
  }

  lemma AboveIsHostsWithMore(m: map<string, HostStat>, order: seq<string>, n: nat)
    requires Enumerates(order, m)
    ensures Above(Entries(order, m), n) == |HostsWithMore(m, n)|
  {
    AboveIsCardinality(order, m, n);
    assert HostsAbove(order, m, n) == HostsWithMore(m, n);
  }

  /** A listed entry is some host's, and fewer than five hosts have more connections. */
  lemma ListedHost(m: map<string, HostStat>, order: seq<string>, i: nat) returns (k: string)
    requires Enumerates(order, m) && i < |TopFive(Entries(order, m))|
    ensures k in m && TopFive(Entries(order, m))[i] == (m[k].hostLabel, m[k].connections)
    ensures |HostsWithMore(m, m[k].connections)| < 5
  {
    var entries := Entries(order, m);
    var sorted := SortDescending(entries);
    assert sorted[i] in multiset(sorted);
    assert sorted[i] in entries;
    var j :| 0 <= j < |entries| && entries[j] == sorted[i];
    k := order[j];
    SortIsDescending(entries);
    AboveIsPrefix(sorted, m[k].connections, i);
    SortAbove(entries, m[k].connections);
    AboveIsHostsWithMore(m, order, m[k].connections);
  }

  lemma ListingOrderFree(s: MetricsState, order: seq<string>, other: seq<string>)
    requires TiesUnlisted(s.perHost)
    requires Enumerates(order, s.perHost) && Enumerates(other, s.perHost)
    ensures SnapshotOf(s, order).mostUsedHosts == SnapshotOf(s, other).mostUsedHosts
  {
    MostUsedCountsOrderFree(s, order, other);
    var a, b := SnapshotOf(s, order).mostUsedHosts, SnapshotOf(s, other).mostUsedHosts;
    forall i | 0 <= i < |a|
      ensures a[i] == b[i]
    {
      var x := ListedHost(s.perHost, order, i);
      var y := ListedHost(s.perHost, other, i);
    }
  }

  lemma {:induction false} SomeOrder<V>(m: map<string, V>) returns (order: seq<string>)
    ensures Enumerates(order, m)
    decreases |m|
  {
    if m == map[] {
      order := [];
    } else {
      var k :| k in m;
      order := OrderFrom(m, k);
    }
  }

  /** An iteration order that yields `first` first. */
  lemma {:induction false} OrderFrom<V>(m: map<string, V>, first: string) returns (order: seq<string>)
    requires first in m
    ensures Enumerates(order, m) && order[0] == first
    decreases |m|, 0
  {
    var others := m - {first};
    assert m.Keys == others.Keys + {first};
    assert |others| == |others.Keys| && |m| == |m.Keys|;
    var rest := SomeOrder(others);
    order := [first] + rest;
  }

  /** The host yielded first is listed right after all hosts with more connections. */
  lemma FirstIsListed(s: MetricsState, order: seq<string>)
    requires Enumerates(order, s.perHost) && order != []
    requires |HostsWithMore(s.perHost, s.perHost[order[0]].connections)| < 5
    ensures var h, top := s.perHost[order[0]], SnapshotOf(s, order).mostUsedHosts;
            var place := |HostsWithMore(s.perHost, h.connections)|;
            place < |top| && top[place] == (h.hostLabel, h.connections)
  {
    hide SortDescending, Above, HostsWithMore;
    var entries := Entries(order, s.perHost);
    FirstLeadsItsCount(entries);
    AboveIsHostsWithMore(s.perHost, order, entries[0].1);
  }

  /**
   The listing, labels included, is the same for every iteration order of the map if and
   only if hosts tied under different labels have at least five hosts above them.
   */
  lemma ListingOrderFreeIff(s: MetricsState)
    ensures (forall order, other | Enumerates(order, s.perHost) && Enumerates(other, s.perHost) ::
               SnapshotOf(s, order).mostUsedHosts == SnapshotOf(s, other).mostUsedHosts)
            <==> TiesUnlisted(s.perHost)
  {
    var m := s.perHost;
    if TiesUnlisted(m) {
      forall order, other | Enumerates(order, m) && Enumerates(other, m)
        ensures SnapshotOf(s, order).mostUsedHosts == SnapshotOf(s, other).mostUsedHosts
      {
        ListingOrderFree(s, order, other);
      }
    } else {
      var a, b :| a in m && b in m && m[a].connections == m[b].connections && m[a].hostLabel != m[b].hostLabel &&
                  |HostsWithMore(m, m[a].connections)| < 5;
      var order := OrderFrom(m, a);
      var other := OrderFrom(m, b);
      FirstIsListed(s, order);
      FirstIsListed(s, other);
      assert SnapshotOf(s, order).mostUsedHosts != SnapshotOf(s, other).mostUsedHosts;
    }
  }

  /** Two hosts used once each are listed in the order in which the map yields them. */
  lemma TiedHostsListedEitherWay(s: MetricsState)
    requires s.perHost == map["@a:" := HostStat("a", 1, 0, 0, 0), "@b:" := HostStat("b", 1, 0, 0, 0)]
    ensures Enumerates(["@a:", "@b:"], s.perHost) && Enumerates(["@b:", "@a:"], s.perHost)
    ensures SnapshotOf(s, ["@a:", "@b:"]).mostUsedHosts == [("a", 1), ("b", 1)]
    ensures SnapshotOf(s, ["@b:", "@a:"]).mostUsedHosts == [("b", 1), ("a", 1)]
  {
    hide TopFive;
    var m := s.perHost;
    assert Entries(["@a:", "@b:"], m) == [("a", 1), ("b", 1)];
    assert Entries(["@b:", "@a:"], m) == [("b", 1), ("a", 1)];
    TwoTied(("a", 1), ("b", 1));
    TwoTied(("b", 1), ("a", 1));
  }
}
