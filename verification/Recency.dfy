/** Move-to-front lists: the reference for "least recently used". */
module Recency {
  import opened Orders

  function Without(list: seq<string>, key: string): (r: seq<string>)
    ensures key !in r
    ensures forall x :: x in r <==> x in list && x != key
    ensures |r| <= |list|
    ensures key !in list ==> r == list
  {
    if list == [] then []
    else
      assert list == [list[0]] + list[1..];
      (if list[0] == key then [] else [list[0]]) + Without(list[1..], key)
  }

  function MoveToFront(list: seq<string>, key: string): seq<string> {
    [key] + Without(list, key)
  }

  lemma {:induction false} WithoutDistinct(list: seq<string>, key: string)
    requires Distinct(list)
    ensures Distinct(Without(list, key))
    ensures |Without(list, key)| == |list| - if key in list then 1 else 0
  {
    if list != [] {
      WithoutDistinct(list[1..], key);
      assert list[0] !in list[1..];
      assert list == [list[0]] + list[1..];
    }
  }

  lemma MoveToFrontDistinct(list: seq<string>, key: string)
    requires Distinct(list)
    ensures Distinct(MoveToFront(list, key))
  {
    WithoutDistinct(list, key);
  }

  function Take(list: seq<string>, n: nat): seq<string> {
    if |list| <= n then list else list[..n]
  }

  lemma TakeCons(head: string, tail: seq<string>, n: nat)
    requires n > 0
    ensures Take([head] + tail, n) == [head] + Take(tail, n - 1)
  {
  }

  /** Removing a key that lies beyond the first `n` leaves the first `n` alone. */
  lemma {:induction false} TakeWithoutBeyond(list: seq<string>, key: string, n: nat)
    requires key !in Take(list, n)
    ensures Take(Without(list, key), n) == Take(list, n)
  {
    if list != [] && n > 0 {
      assert list == [list[0]] + list[1..];
      TakeCons(list[0], list[1..], n);
      TakeWithoutBeyond(list[1..], key, n - 1);
      TakeCons(list[0], Without(list[1..], key), n);
    }
  }

  /** Removing a key among the first `n` pulls one more element in. */
  lemma {:induction false} TakeWithoutWithin(list: seq<string>, key: string, n: nat)
    requires Distinct(list) && key in Take(list, n)
    ensures n > 0 && Take(Without(list, key), n - 1) == Without(Take(list, n), key)
  {
    assert list == [list[0]] + list[1..];
    TakeCons(list[0], list[1..], n);
    var tail := Take(list[1..], n - 1);
    assert Take(list, n)[1..] == tail;
    if list[0] == key {
      assert tail <= list[1..];
      assert key !in tail;
    } else {
      TakeWithoutWithin(list[1..], key, n - 1);
      TakeCons(list[0], Without(list[1..], key), n - 1);
    }
  }

  lemma TakeFewer(list: seq<string>, key: string, n: nat)
    requires key !in Take(list, n) && n > 0
    ensures key !in Take(list, n - 1)
  {
    assert forall i | 0 <= i < |Take(list, n - 1)| :: Take(list, n - 1)[i] == Take(list, n)[i];
  }

  /** The first `n` after a request: the requested key, then what was first before. */
  lemma TakeMoveToFront(list: seq<string>, key: string, n: nat)
    requires Distinct(list) && n > 0
    ensures Take(MoveToFront(list, key), n) ==
            [key] + if key in Take(list, n) then Without(Take(list, n), key) else Take(list, n - 1)
  {
    hide Take, Without;
    TakeCons(key, Without(list, key), n);
    if key in Take(list, n) {
      TakeWithoutWithin(list, key, n);
    } else {
      TakeFewer(list, key, n);
      TakeWithoutBeyond(list, key, n - 1);
    }
  }

  function KeySet(list: seq<string>): (s: set<string>)
    ensures forall x :: x in s <==> x in list
  {
    set x | x in list
  }

  lemma {:induction false} DistinctCardinality(list: seq<string>)
    requires Distinct(list)
    ensures |KeySet(list)| == |list|
  {
    if list != [] {
      DistinctCardinality(list[1..]);
      assert list == [list[0]] + list[1..];
      assert KeySet(list) == {list[0]} + KeySet(list[1..]);
    }
  }

  // ---------------------------------------------------------------- requests

  /** The distinct keys of a request sequence, most recently requested first. */
  function MostRecent(requests: seq<string>): seq<string> {
    if requests == [] then []
    else MoveToFront(MostRecent(requests[..|requests| - 1]), requests[|requests| - 1])
  }

  lemma {:induction false} MostRecentIsDistinct(requests: seq<string>)
    ensures Distinct(MostRecent(requests))
    ensures forall k :: k in MostRecent(requests) <==> k in requests
  {
    if requests != [] {
      var before, k := requests[..|requests| - 1], requests[|requests| - 1];
      MostRecentIsDistinct(before);
      MoveToFrontDistinct(MostRecent(before), k);
      assert requests == before + [k];
    }
  }

  /** `key` was requested, and fewer than `n` distinct other keys were requested since. */
  ghost predicate RequestedWithin(requests: seq<string>, key: string, n: nat) {
    exists i :: 0 <= i < |requests| && requests[i] == key && key !in requests[i + 1..] &&
      |KeySet(requests[i + 1..])| < n
  }

  lemma {:induction false} WithoutConcat(a: seq<string>, b: seq<string>, key: string)
    ensures Without(a + b, key) == Without(a, key) + Without(b, key)
  {
    if a == [] {
      assert a + b == b;
    } else {
      assert (a + b)[1..] == a[1..] + b;
      WithoutConcat(a[1..], b, key);
    }
  }

  lemma WithoutHead(head: string, tail: seq<string>, key: string)
    requires head != key
    ensures Without([head] + tail, key) == [head] + Without(tail, key)
  {
    assert ([head] + tail)[1..] == tail;
  }

  lemma MoveSplit(front: seq<string>, key: string, rest: seq<string>, last: string)
    requires key != last
    ensures MoveToFront(front + ([key] + rest), last) == MoveToFront(front, last) + ([key] + Without(rest, last))
  {
    hide Without;
    WithoutConcat(front, [key] + rest, last);
    WithoutHead(key, rest, last);
    ConsConcat(last, Without(front, last), [key] + Without(rest, last));
  }

  lemma ConsConcat(x: string, a: seq<string>, b: seq<string>)
    ensures [x] + (a + b) == ([x] + a) + b
  {
  }

  /** The keys listed before one are the distinct keys requested since. */
  lemma {:induction false} SplitAtKey(requests: seq<string>, i: nat) returns (front: seq<string>, rest: seq<string>)
    requires i < |requests| && requests[i] !in requests[i + 1..]
    ensures MostRecent(requests) == front + ([requests[i]] + rest)
    ensures Distinct(front) && KeySet(front) == KeySet(requests[i + 1..])
  {
    var before, last := requests[..|requests| - 1], requests[|requests| - 1];
    var key, since := requests[i], requests[i + 1..];
    if i == |requests| - 1 {
      front, rest := [], Without(MostRecent(before), last);
    } else {
      assert since == before[i + 1..] + [last];
      assert before[i] == key && last != key;
      var front', rest' := SplitAtKey(before, i);
      MoveSplit(front', key, rest', last);
      MoveToFrontDistinct(front', last);
      front, rest := MoveToFront(front', last), Without(rest', last);
      assert KeySet(front) == KeySet(front') + {last} == KeySet(since);
    }
  }

  lemma TakeSplit(front: seq<string>, key: string, rest: seq<string>, n: nat)
    requires Distinct(front + ([key] + rest))
    ensures key in Take(front + ([key] + rest), n) <==> |front| < n
  {
    var list := front + ([key] + rest);
    assert list[|front|] == key;
    if |front| < n {
      assert Take(list, n)[|front|] == key;
    } else {
      assert forall j | 0 <= j < |Take(list, n)| :: Take(list, n)[j] == front[j];
    }
  }

  lemma LastOccurrenceIff(requests: seq<string>, i: nat, n: nat)
    requires i < |requests| && requests[i] !in requests[i + 1..]
    ensures requests[i] in Take(MostRecent(requests), n) <==> |KeySet(requests[i + 1..])| < n
  {
    var front, rest := SplitAtKey(requests, i);
    MostRecentIsDistinct(requests);
    TakeSplit(front, requests[i], rest, n);
    DistinctCardinality(front);
  }

  lemma {:induction false} LastRequest(requests: seq<string>, key: string) returns (i: nat)
    requires key in requests
    ensures i < |requests| && requests[i] == key && key !in requests[i + 1..]
  {
    var last := |requests| - 1;
    if requests[last] == key {
      i := last;
    } else {
      assert requests == requests[..last] + [requests[last]];
      i := LastRequest(requests[..last], key);
      assert requests[i + 1..] == requests[..last][i + 1..] + [requests[last]];
    }
  }

  /** Being among the `n` most recent keys means having been requested recently enough. */
  lemma AmongFirstIff(requests: seq<string>, key: string, n: nat)
    ensures key in Take(MostRecent(requests), n) <==> RequestedWithin(requests, key, n)
  {
    if key in Take(MostRecent(requests), n) {
      MostRecentIsDistinct(requests);
      var i := LastRequest(requests, key);
      LastOccurrenceIff(requests, i, n);
    }
    if RequestedWithin(requests, key, n) {
      var i :| 0 <= i < |requests| && requests[i] == key && key !in requests[i + 1..] &&
        |KeySet(requests[i + 1..])| < n;
      LastOccurrenceIff(requests, i, n);
    }
  }
}
