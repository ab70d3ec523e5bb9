/** Ordering of the per-host statistics: a stable descending sort, cut at five. */
module Ranking {
  /** A printed label with its number of connections. */
  type Entry = (string, nat)

  function Insert(e: Entry, sorted: seq<Entry>): (r: seq<Entry>)
    ensures multiset(r) == multiset(sorted) + multiset{e}
  {
    if sorted == [] || e.1 >= sorted[0].1 then [e] + sorted
    else
      assert sorted == [sorted[0]] + sorted[1..];
      [sorted[0]] + Insert(e, sorted[1..])
  }

  /** `sort_by(|a, b| b.1.cmp(&a.1))`: largest count first, equal counts in the order given. */
  function SortDescending(s: seq<Entry>): (r: seq<Entry>)
    ensures multiset(r) == multiset(s)
    ensures |r| == |s|
  {
    if s == [] then []
    else
      assert s == [s[0]] + s[1..];
      var r := Insert(s[0], SortDescending(s[1..]));
      assert |r| == |multiset(r)| == |multiset(s)| == |s|;
      r
  }

  function TopFive(s: seq<Entry>): seq<Entry> {
    var sorted := SortDescending(s);
    if |sorted| <= 5 then sorted else sorted[..5]
  }

  ghost predicate Descending(s: seq<Entry>) {
    forall i, j | 0 <= i < j < |s| :: s[i].1 >= s[j].1
  }

  lemma {:induction false} InsertBounded(e: Entry, s: seq<Entry>, bound: nat)
    requires e.1 <= bound && forall i | 0 <= i < |s| :: s[i].1 <= bound
    ensures forall i | 0 <= i < |Insert(e, s)| :: Insert(e, s)[i].1 <= bound
  {
    if s != [] && e.1 < s[0].1 {
      InsertBounded(e, s[1..], bound);
    }
  }

  lemma {:induction false} InsertDescending(e: Entry, s: seq<Entry>)
    requires Descending(s)
    ensures Descending(Insert(e, s))
  {
    if s != [] && e.1 < s[0].1 {
      InsertDescending(e, s[1..]);
      InsertBounded(e, s[1..], s[0].1);
    }
  }

  lemma {:induction false} SortIsDescending(s: seq<Entry>)
    ensures Descending(SortDescending(s))
  {
    if s != [] {
      SortIsDescending(s[1..]);
      InsertDescending(s[0], SortDescending(s[1..]));
    }
  }

  /** Entries of one count keep their relative order. */
  function WithCount(s: seq<Entry>, n: nat): seq<Entry> {
    if s == [] then []
    else (if s[0].1 == n then [s[0]] else []) + WithCount(s[1..], n)
  }

  lemma {:induction false} InsertStable(e: Entry, s: seq<Entry>, n: nat)
    requires Descending(s)
    ensures WithCount(Insert(e, s), n) == (if e.1 == n then [e] else []) + WithCount(s, n)
  {
    if s == [] || e.1 >= s[0].1 {
      assert ([e] + s)[1..] == s;
    } else {
      InsertStable(e, s[1..], n);
      var r := Insert(e, s[1..]);
      assert ([s[0]] + r)[1..] == r;
      if e.1 == n {
        assert s[0].1 != n;
      }
    }
  }

  lemma {:induction false} SortStable(s: seq<Entry>, n: nat)
    ensures WithCount(SortDescending(s), n) == WithCount(s, n)
  {
    if s != [] {
      SortStable(s[1..], n);
      SortIsDescending(s[1..]);
      InsertStable(s[0], SortDescending(s[1..]), n);
    }
  }

  /** The entries cut off by `TopFive`. */
  function Omitted(s: seq<Entry>): seq<Entry> {
    var sorted := SortDescending(s);
    if |sorted| <= 5 then [] else sorted[5..]
  }

  /** `top` ranks `all`: largest first, nothing lost, and no omitted count exceeds a listed one. */
  ghost predicate Ranks(top: seq<Entry>, omitted: seq<Entry>, all: seq<Entry>) {
    && Descending(top)
    && multiset(top) + multiset(omitted) == multiset(all)
    && forall i, j | 0 <= i < |top| && 0 <= j < |omitted| :: top[i].1 >= omitted[j].1
  }

  lemma TopFiveIsLargest(s: seq<Entry>)
    ensures |TopFive(s)| == (if |s| < 5 then |s| else 5)
    ensures Ranks(TopFive(s), Omitted(s), s)
  {
    SortIsDescending(s);
    assert SortDescending(s) == TopFive(s) + Omitted(s);
    assert multiset(SortDescending(s)) == multiset(TopFive(s)) + multiset(Omitted(s));
  }

  /** How many entries have a count above `n`. */
  function Above(s: seq<Entry>, n: nat): (r: nat)
    ensures r <= |s|
  {
    if s == [] then 0
    else (if s[0].1 > n then 1 else 0) + Above(s[1..], n)
  }

  lemma {:induction false} InsertAbove(e: Entry, s: seq<Entry>, n: nat)
    ensures Above(Insert(e, s), n) == (if e.1 > n then 1 else 0) + Above(s, n)
  {
    if s == [] || e.1 >= s[0].1 {
      assert ([e] + s)[1..] == s;
    } else {
      InsertAbove(e, s[1..], n);
      var r := Insert(e, s[1..]);
      assert ([s[0]] + r)[1..] == r;
    }
  }

  lemma {:induction false} SortAbove(s: seq<Entry>, n: nat)
    ensures Above(SortDescending(s), n) == Above(s, n)
  {
    if s != [] {
      SortAbove(s[1..], n);
      InsertAbove(s[0], SortDescending(s[1..]), n);
    }
  }

  /** In a descending list the counts above `n` are exactly the first `Above` ones. */
  lemma {:induction false} AboveIsPrefix(s: seq<Entry>, n: nat, i: nat)
    requires Descending(s) && i < |s|
    ensures s[i].1 > n <==> i < Above(s, n)
  {
    if s[0].1 > n {
      if i > 0 {
        AboveIsPrefix(s[1..], n, i - 1);
      }
    } else {
      NoneAbove(s, n);
    }
  }

  lemma {:induction false} NoneAbove(s: seq<Entry>, n: nat)
    requires forall i | 0 <= i < |s| :: s[i].1 <= n
    ensures Above(s, n) == 0
  {
    if s != [] {
      NoneAbove(s[1..], n);
    }
  }

  lemma SortedPositionsAgree(a: seq<Entry>, b: seq<Entry>, n: nat, i: nat)
    requires |a| == |b| && i < |a|
    requires Above(a, n) == Above(b, n)
    ensures SortDescending(a)[i].1 > n <==> SortDescending(b)[i].1 > n
  {
    SortIsDescending(a);
    SortIsDescending(b);
    SortAbove(a, n);
    SortAbove(b, n);
    AboveIsPrefix(SortDescending(a), n, i);
    AboveIsPrefix(SortDescending(b), n, i);
  }

  /** The listed counts depend only on how many entries lie above each number. */
  lemma TopFiveCountsOrderFree(a: seq<Entry>, b: seq<Entry>)
    requires |a| == |b| && forall n: nat :: Above(a, n) == Above(b, n)
    ensures |TopFive(a)| == |TopFive(b)|
    ensures forall i | 0 <= i < |TopFive(a)| :: TopFive(a)[i].1 == TopFive(b)[i].1
  {
    hide SortDescending, Above;
    forall i | 0 <= i < |TopFive(a)|
      ensures TopFive(a)[i].1 == TopFive(b)[i].1
    {
      SortedPositionsAgree(a, b, SortDescending(a)[i].1, i);
      SortedPositionsAgree(a, b, SortDescending(b)[i].1, i);
    }
  }

  lemma {:induction false} InsertPosition(e: Entry, s: seq<Entry>)
    requires Descending(s)
    ensures Above(s, e.1) < |Insert(e, s)| && Insert(e, s)[Above(s, e.1)] == e
  {
    if s == [] {
    } else if e.1 >= s[0].1 {
      NoneAbove(s, e.1);
    } else {
      InsertPosition(e, s[1..]);
    }
  }

  /** The first entry comes right after all larger counts, so before every entry of its own count. */
  lemma FirstLeadsItsCount(s: seq<Entry>)
    requires s != []
    ensures Above(s, s[0].1) < |s| && SortDescending(s)[Above(s, s[0].1)] == s[0]
  {
    SortIsDescending(s[1..]);
    SortAbove(s[1..], s[0].1);
    InsertPosition(s[0], SortDescending(s[1..]));
  }

  lemma TwoTied(e: Entry, f: Entry)
    requires e.1 == f.1
    ensures TopFive([e, f]) == [e, f]
  {
    assert [e, f][1..] == [f] && [f][1..] == [];
    assert SortDescending([f]) == [f];
    assert SortDescending([e, f]) == Insert(e, [f]) == [e] + [f];
  }
}
