/** The Lua script and the in-memory limiter give the same answers under one limit and an ordered clock. */
module LimiterEquivalence {
  import opened Timestamps
  import opened LuaLimiter
  import opened MemoryLimiter

  /** What `checkRateLimit` makes of the script's reply. */
  function DecisionOf(reply: Reply, limit: int): Decision {
    if reply.allowed then Decision(true, limit - reply.current, reply.resetTime, reply.current)
    else Decision(false, 0, reply.resetTime, reply.current)
  }

  /** `es` lists the members of `z` in the order of the stamps `ts`. */
  ghost predicate Lists(z: set<Entry>, es: seq<Entry>, ts: seq<int>) {
    && |es| == |ts|
    && (forall i | 0 <= i < |es| :: es[i].score == ts[i] && es[i] in z)
    && (forall e | e in z :: e in es)
    && (forall i, j | 0 <= i < j < |es| :: es[i] != es[j])
  }

  /** The sorted set and the list hold the same admissions. */
  ghost predicate Matches(z: set<Entry>, ts: seq<int>) {
    exists es :: Lists(z, es, ts)
  }

  lemma ListsInit(z: set<Entry>, es: seq<Entry>, ts: seq<int>)
    requires Lists(z, es, ts) && ts != []
    ensures Lists(z - {es[|es| - 1]}, es[..|es| - 1], ts[..|ts| - 1])
  {
    var last := es[|es| - 1];
    forall e | e in z - {last} ensures e in es[..|es| - 1] {
      assert e in es;
    }
  }

  lemma ListsAdd(z: set<Entry>, es: seq<Entry>, ts: seq<int>, e: Entry)
    requires Lists(z, es, ts) && e !in z
    ensures Lists(z + {e}, es + [e], ts + [e.score])
  {
    forall f | f in z + {e} ensures f in es + [e] {
      if f != e { assert f in es; } else { assert (es + [e])[|es|] == e; }
    }
  }

  lemma {:induction false} ListsSize(z: set<Entry>, es: seq<Entry>, ts: seq<int>)
    requires Lists(z, es, ts)
    ensures |z| == |ts|
    decreases |ts|
  {
    if ts == [] {
      assert z == {};
    } else {
      ListsInit(z, es, ts);
      ListsSize(z - {es[|es| - 1]}, es[..|es| - 1], ts[..|ts| - 1]);
    }
  }

  lemma PruneLast(z: set<Entry>, last: Entry, t: int)
    requires last in z && last.score > 0
    ensures Prune(z, t) == Prune(z - {last}, t) + (if last.score > t then {last} else {})
  {
  }

  lemma {:induction false} ListsPruned(z: set<Entry>, es: seq<Entry>, ts: seq<int>, t: int) returns (kept: seq<Entry>)
    requires Lists(z, es, ts) && Positive(ts)
    ensures Lists(Prune(z, t), kept, After(ts, t))
    decreases |ts|
  {
    if ts == [] {
      assert Prune(z, t) == {};
      kept := [];
    } else {
      var last, init := es[|es| - 1], ts[..|ts| - 1];
      ListsInit(z, es, ts);
      kept := ListsPruned(z - {last}, es[..|es| - 1], init, t);
      assert 0 < ts[|ts| - 1] == last.score;
      hide Positive;
      PruneLast(z, last, t);
      if last.score > t {
        ListsAdd(Prune(z - {last}, t), kept, After(init, t), last);
        kept := kept + [last];
      }
    }
  }

  /** The first stamp of a sorted list is the smallest score: ZRANGE 0 0 and `timestamps[0]` agree. */
  lemma ListsOldest(z: set<Entry>, es: seq<Entry>, ts: seq<int>)
    requires Lists(z, es, ts) && Sorted(ts) && ts != []
    ensures z != {} && OldestScore(z) == ts[0]
  {
    assert es[0] in z;
    var e :| e in z && e.score == OldestScore(z);
    assert e in es;
  }

  /** Both prunings leave matching states of one size, with one oldest stamp. */
  lemma LiveMatches(z: set<Entry>, ts: seq<int>, t: int)
    requires Matches(z, ts) && Sorted(ts) && Positive(ts)
    ensures Matches(Prune(z, t), After(ts, t)) && |Prune(z, t)| == |After(ts, t)|
    ensures After(ts, t) != [] ==> Prune(z, t) != {} && OldestScore(Prune(z, t)) == After(ts, t)[0] > 0
  {
    hide Check, OldestScore;
    var es :| Lists(z, es, ts);
    var kept := ListsPruned(z, es, ts, t);
    ListsSize(Prune(z, t), kept, After(ts, t));
    AfterKeepsSorted(ts, t);
    AfterMembers(ts, t);
    if After(ts, t) != [] {
      ListsOldest(Prune(z, t), kept, After(ts, t));
      assert After(ts, t)[0] in After(ts, t);
    }
  }

  lemma MatchesAdd(z: set<Entry>, ts: seq<int>, e: Entry)
    requires Matches(z, ts) && e !in z
    ensures Matches(z + {e}, ts + [e.score])
  {
    var es :| Lists(z, es, ts);
    ListsAdd(z, es, ts, e);
  }

  /**
   One call on matching states leaves matching states. The answers are equal unless a limit
   below 1 denies a client that has nothing in the window: the script then reports `now` as
   the reset time, the in-memory limiter `now + W`.
   */
  lemma CallMatches(z: set<Entry>, ts: seq<int>, now: int, window: int, limit: int, nonce: nat)
    requires Matches(z, ts) && Sorted(ts) && Positive(ts) && Entry(now, nonce) !in z
    ensures DecisionOf(Eval(z, now, window, limit, nonce).1, limit) == Check(ts, now, window, limit).1
       <==> limit >= 1 || After(ts, now - Millis(window)) != [] || window == 0
    ensures Matches(Eval(z, now, window, limit, nonce).0, Check(ts, now, window, limit).0)
  {
    hide Matches, Lists, After, Sorted, Positive;
    var t := now - Millis(window);
    LiveMatches(z, ts, t);
    assert After(ts, t) == [] <==> Prune(z, t) == {};
    if |After(ts, t)| < limit {
      MatchesAdd(Prune(z, t), After(ts, t), Entry(now, nonce));
    }
  }
}
