/** Lists of request times, in milliseconds, and the filter the rate limiter prunes them with. */
module Timestamps {

  function Millis(seconds: int): int {
    seconds * 1000
  }

  /** The stamps later than `t`, in their order. */
  function After(ts: seq<int>, t: int): (r: seq<int>)
    ensures |r| <= |ts|
  {
    if ts == [] then []
    else After(ts[..|ts| - 1], t) + (if ts[|ts| - 1] > t then [ts[|ts| - 1]] else [])
  }

  /** How many stamps lie in the half-open interval [lo, hi). */
  function CountIn(ts: seq<int>, lo: int, hi: int): nat {
    if ts == [] then 0
    else CountIn(ts[..|ts| - 1], lo, hi) + (if lo <= ts[|ts| - 1] < hi then 1 else 0)
  }

  /** The earliest stamp of a non-empty list. */
  function Earliest(ts: seq<int>): (m: int)
    requires ts != []
    ensures m in ts && forall x | x in ts :: m <= x
  {
    var last := ts[|ts| - 1];
    if |ts| == 1 then last
    else
      var m := Earliest(ts[..|ts| - 1]);
      assert ts == ts[..|ts| - 1] + [last];
      if last < m then last else m
  }

  ghost predicate Sorted(ts: seq<int>) {
    forall i, j | 0 <= i < j < |ts| :: ts[i] <= ts[j]
  }

  lemma {:induction false} AfterMembers(ts: seq<int>, t: int)
    ensures forall x :: x in After(ts, t) <==> x in ts && x > t
  {
    if ts == [] {
    } else {
      AfterMembers(ts[..|ts| - 1], t);
      assert ts == ts[..|ts| - 1] + [ts[|ts| - 1]];
    }
  }

  /** No call that prunes at `t` or later can tell the two lists apart. */
  ghost predicate SameAfter(ts: seq<int>, us: seq<int>, t: int) {
    After(ts, t) == After(us, t)
  }

  ghost predicate AtMost(ts: seq<int>, latest: int) {
    forall i | 0 <= i < |ts| :: ts[i] <= latest
  }

  ghost predicate Positive(ts: seq<int>) {
    forall i | 0 <= i < |ts| :: ts[i] > 0
  }

  lemma AfterAppend(ts: seq<int>, x: int, t: int)
    ensures After(ts + [x], t) == After(ts, t) + (if x > t then [x] else [])
  {
    assert (ts + [x])[..|ts|] == ts;
  }

  lemma CountInAppend(ts: seq<int>, x: int, lo: int, hi: int)
    ensures CountIn(ts + [x], lo, hi) == CountIn(ts, lo, hi) + (if lo <= x < hi then 1 else 0)
  {
    assert (ts + [x])[..|ts|] == ts;
  }

  /** Pruning early and pruning again later is pruning once, later. */
  lemma {:induction false} AfterTwice(ts: seq<int>, t: int, u: int)
    requires t <= u
    ensures After(After(ts, t), u) == After(ts, u)
  {
    if ts == [] {
    } else {
      var init, last := ts[..|ts| - 1], ts[|ts| - 1];
      AfterTwice(init, t, u);
      AfterAppend(After(init, t), last, u);
      assert After(init, t) + [] == After(init, t);
    }
  }

  lemma SameAfterLater(ts: seq<int>, us: seq<int>, t: int, u: int)
    requires t <= u && SameAfter(ts, us, t)
    ensures SameAfter(ts, us, u)
  {
    AfterTwice(ts, t, u);
    AfterTwice(us, t, u);
  }

  lemma SameAfterPruned(ts: seq<int>, us: seq<int>, t: int)
    requires SameAfter(ts, us, t)
    ensures SameAfter(After(ts, t), us, t)
  {
    AfterTwice(ts, t, t);
  }

  lemma SameAfterAppend(ts: seq<int>, us: seq<int>, x: int, t: int)
    requires SameAfter(ts, us, t)
    ensures SameAfter(ts + [x], us + [x], t)
  {
    AfterAppend(ts, x, t);
    AfterAppend(us, x, t);
  }

  lemma SortedAppend(ts: seq<int>, x: int)
    requires Sorted(ts) && AtMost(ts, x)
    ensures Sorted(ts + [x]) && AtMost(ts + [x], x)
    ensures Positive(ts) && x > 0 ==> Positive(ts + [x])
  {
  }

  lemma {:induction false} AfterKeepsSorted(ts: seq<int>, t: int)
    requires Sorted(ts)
    ensures Sorted(After(ts, t))
  {
    if ts == [] {
    } else {
      var init := ts[..|ts| - 1];
      AfterKeepsSorted(init, t);
      AfterMembers(init, t);
      forall i | 0 <= i < |After(init, t)| ensures After(init, t)[i] <= ts[|ts| - 1] {
        assert After(init, t)[i] in After(init, t);
      }
      SortedAppend(After(init, t), ts[|ts| - 1]);
    }
  }

  /** Stamps of an interval that starts after `t` all survive pruning at `t`. */
  lemma {:induction false} CountInBound(ts: seq<int>, lo: int, hi: int, t: int)
    requires t < lo
    ensures CountIn(ts, lo, hi) <= |After(ts, t)|
  {
    if ts == [] {
    } else {
      CountInBound(ts[..|ts| - 1], lo, hi, t);
    }
  }

  /** What survives pruning is what lies between the cut and the latest stamp. */
  lemma {:induction false} AfterCount(ts: seq<int>, t: int, latest: int)
    requires AtMost(ts, latest)
    ensures |After(ts, t)| == CountIn(ts, t + 1, latest + 1)
  {
    if ts == [] {
    } else {
      AfterCount(ts[..|ts| - 1], t, latest);
    }
  }

  lemma {:induction false} AfterAll(ts: seq<int>, t: int)
    requires forall x | x in ts :: x > t
    ensures After(ts, t) == ts
  {
    if ts == [] {
    } else {
      var init := ts[..|ts| - 1];
      assert ts[|ts| - 1] in ts;
      forall x | x in init ensures x > t {
        assert x in ts;
      }
      AfterAll(init, t);
    }
  }

  lemma {:induction false} AfterSome(ts: seq<int>, x: int, t: int)
    requires x in ts && x <= t
    ensures |After(ts, t)| < |ts|
  {
    var init, last := ts[..|ts| - 1], ts[|ts| - 1];
    assert ts == init + [last];
    if last > t {
      AfterSome(init, x, t);
    }
  }
}
