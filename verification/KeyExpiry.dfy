/**
 Redis expires a rate-limit key `window + 60` seconds, on its own clock, after the last
 admission. This module says when that can be seen through the script's answers, and that the
 window bound holds whether or not it can.
 */
module KeyExpiry {
  import opened LuaLimiter
  import opened Timestamps

  /** A key with its EXPIRE deadline on the Redis clock. */
  datatype Key = Key(members: set<Entry>, expiresAt: int)

  const ABSENT := Key({}, 0)

  /** What is left of a key at Redis time `at`: a key lasts through the millisecond of its deadline. */
  function Present(key: Key, at: int): set<Entry> {
    if at > key.expiresAt then {} else key.members
  }

  /** The script at Redis time `at`; only an admission renews the deadline. */
  function EvalExpiring(key: Key, c: Call, window: int, at: int): (Key, Reply) {
    var (z, reply) := Eval(Present(key, at), c.now, window, c.limit, c.nonce);
    (Key(z, if reply.allowed then at + Millis(window + 60) else key.expiresAt), reply)
  }

  ghost function KeyAt(calls: seq<Call>, at: seq<int>, window: int, k: nat): Key
    requires k <= |calls| == |at|
  {
    if k == 0 then ABSENT
    else
      var key := KeyAt(calls, at, window, k - 1);
      if calls[k - 1].ran then EvalExpiring(key, calls[k - 1], window, at[k - 1]).0 else key
  }

  ghost function ExpiringReplyAt(calls: seq<Call>, at: seq<int>, window: int, k: nat): Reply
    requires k < |calls| == |at|
  {
    EvalExpiring(KeyAt(calls, at, window, k), calls[k], window, at[k]).1
  }

  /**
   Scripts run at non-decreasing Redis times, and each carries a client time at most `ahead`
   after and `behind` before the Redis time at which it runs, delay included.
   */
  ghost predicate ClocksWithin(calls: seq<Call>, at: seq<int>, ahead: int, behind: int): (within: bool)
    ensures within ==> |calls| == |at|
  {
    && |calls| == |at|
    && (forall k | 0 <= k < |calls| && calls[k].ran ::
          0 <= calls[k].now && at[k] - behind <= calls[k].now <= at[k] + ahead)
    && (forall j, k | 0 <= j < k < |at| && calls[j].ran && calls[k].ran :: at[j] <= at[k])
  }

  /** The deadline of a key is a window and a minute after the Redis time of its last admission; denials leave it. */
  lemma {:induction false} DeadlineIsLastAdmission(calls: seq<Call>, at: seq<int>, window: int, last: nat, k: nat)
    requires |calls| == |at| && last < k <= |calls|
    requires calls[last].ran && ExpiringReplyAt(calls, at, window, last).allowed
    requires forall j | last < j < k && calls[j].ran :: !ExpiringReplyAt(calls, at, window, j).allowed
    ensures KeyAt(calls, at, window, k).expiresAt == at[last] + (window + 60) * 1000
  {
    if k == last + 1 {
    } else {
      DeadlineIsLastAdmission(calls, at, window, last, k - 1);
    }
  }

  // ---- When expiry is unseen ----

  /** Expiry changes no answer of a run. */
  ghost predicate ExpiryUnseen(calls: seq<Call>, at: seq<int>, window: int)
    requires |calls| == |at|
  {
    forall k | 0 <= k < |calls| && calls[k].ran :: ExpiringReplyAt(calls, at, window, k) == ReplyAt(calls, window, k)
  }

  /** Members were stamped by `t` at the latest, and the deadline leaves each its window and a minute. */
  ghost predicate Covers(key: Key, window: int, ahead: int, t: int) {
    forall e | e in key.members ::
      0 <= e.score && e.score - ahead <= t && e.score + Millis(window + 60) - ahead <= key.expiresAt
  }

  /** A call finds an expired key when the window has passed for all its members. */
  lemma ExpiringStep(key: Key, c: Call, window: int, at: int, ahead: int, behind: int)
    requires ahead + behind <= 60001
    requires 0 <= c.now && at - behind <= c.now <= at + ahead
    requires Covers(key, window, ahead, at)
    ensures EvalExpiring(key, c, window, at).1 == Eval(key.members, c.now, window, c.limit, c.nonce).1
    ensures EvalExpiring(key, c, window, at).0.members == Eval(key.members, c.now, window, c.limit, c.nonce).0
    ensures forall t | at <= t :: Covers(EvalExpiring(key, c, window, at).0, window, ahead, t)
  {
    var start := c.now - Millis(window);
    if at > key.expiresAt {
      assert Prune(key.members, start) == {} == Prune({}, start);
    }
  }

  lemma {:induction false} SameMembers(calls: seq<Call>, at: seq<int>, window: int, ahead: int, behind: int, k: nat)
    requires ahead + behind <= 60001 && ClocksWithin(calls, at, ahead, behind) && k <= |calls|
    ensures KeyAt(calls, at, window, k).members == State(calls, window, k)
    ensures forall j | k <= j < |at| && calls[j].ran :: Covers(KeyAt(calls, at, window, k), window, ahead, at[j])
  {
    if k == 0 {
    } else {
      SameMembers(calls, at, window, ahead, behind, k - 1);
      if calls[k - 1].ran {
        hide Covers;
        ExpiringStep(KeyAt(calls, at, window, k - 1), calls[k - 1], window, at[k - 1], ahead, behind);
      }
    }
  }

  lemma SameReplies(calls: seq<Call>, at: seq<int>, window: int, ahead: int, behind: int)
    requires ahead + behind <= 60001 && ClocksWithin(calls, at, ahead, behind)
    ensures ExpiryUnseen(calls, at, window)
  {
    forall k | 0 <= k < |calls| && calls[k].ran
      ensures ExpiringReplyAt(calls, at, window, k) == ReplyAt(calls, window, k)
    {
      SameMembers(calls, at, window, ahead, behind, k);
      hide Covers;
      ExpiringStep(KeyAt(calls, at, window, k), calls[k], window, at[k], ahead, behind);
    }
  }

  /** An entry whose client ran ahead expires before a call whose client runs behind stops counting it. */
  function FarApart(window: int, ahead: int, behind: int): seq<Call> {
    [Call(ahead + behind, 1, 0, true), Call(Millis(window) + 60001, 1, 1, true)]
  }

  function FarApartTimes(window: int, behind: int): seq<int> {
    [behind, behind + Millis(window) + 60001]
  }

  /** The second of two calls, after an admission on the absent key. */
  lemma SecondCall(calls: seq<Call>, at: seq<int>, window: int)
    requires |calls| == |at| == 2 && calls[0].ran && calls[0].limit >= 1
    ensures var e, last := EntryOf(calls[0]), |calls| - 1;
            && State(calls, window, last) == {e}
            && KeyAt(calls, at, window, last) == Key({e}, at[0] + Millis(window + 60))
  {
    var first := |calls| - 2;
    assert Prune({}, calls[first].now - Millis(window)) == {};
    assert State(calls, window, first) == {} && KeyAt(calls, at, window, first) == ABSENT;
  }

  lemma FarApartSeesExpiry(window: int, ahead: int, behind: int)
    requires ahead + behind > 60001 && window >= 0
    ensures ClocksWithin(FarApart(window, ahead, behind), FarApartTimes(window, behind), ahead, behind)
    ensures !ExpiryUnseen(FarApart(window, ahead, behind), FarApartTimes(window, behind), window)
  {
    var calls, at := FarApart(window, ahead, behind), FarApartTimes(window, behind);
    var last := |calls| - 1;
    SecondCall(calls, at, window);
    hide State, KeyAt;
    assert Prune({EntryOf(calls[0])}, 60001) == {EntryOf(calls[0])};
    assert !ReplyAt(calls, window, last).allowed && ExpiringReplyAt(calls, at, window, last).allowed;
  }

  /**
   The extra minute covers exactly the clock skews that add up to at most a minute and the
   millisecond through which an expiring key still lasts.
   */
  lemma ExpiryUnseenIff(window: int, ahead: int, behind: int)
    requires window >= 0
    ensures (forall calls: seq<Call>, at: seq<int> | ClocksWithin(calls, at, ahead, behind) ::
               ExpiryUnseen(calls, at, window))
       <==> ahead + behind <= 60001
  {
    hide ClocksWithin, ExpiryUnseen;
    if ahead + behind <= 60001 {
      forall calls: seq<Call>, at: seq<int> | ClocksWithin(calls, at, ahead, behind)
        ensures ExpiryUnseen(calls, at, window)
      {
        SameReplies(calls, at, window, ahead, behind);
      }
    } else {
      FarApartSeesExpiry(window, ahead, behind);
    }
  }

  // ---- The window bound of an expiring key ----

  ghost predicate ExpiringAdmitted(calls: seq<Call>, at: seq<int>, window: int, k: nat)
    requires k < |calls| == |at|
  {
    calls[k].ran && ExpiringReplyAt(calls, at, window, k).allowed
  }

  ghost function ExpiringAdmittedIn(calls: seq<Call>, at: seq<int>, window: int, lo: int, hi: int): set<nat>
    requires |calls| == |at|
  {
    set i: nat | i < |calls| && ExpiringAdmitted(calls, at, window, i) && lo <= calls[i].now < hi
  }

  /** What call `k` counts. */
  ghost function LiveAt(calls: seq<Call>, at: seq<int>, window: int, k: nat): set<Entry>
    requires k < |calls| == |at|
  {
    Prune(Present(KeyAt(calls, at, window, k), at[k]), calls[k].now - Millis(window))
  }

  lemma ExpiringAdmittedIff(calls: seq<Call>, at: seq<int>, window: int, k: nat)
    requires k < |calls| == |at|
    ensures ExpiringAdmitted(calls, at, window, k) <==> calls[k].ran && |LiveAt(calls, at, window, k)| < calls[k].limit
  {
  }

  /** An admission stays in the key while no call arrives a whole window after it, on either clock. */
  lemma {:induction false} RetainedExpiring(calls: seq<Call>, at: seq<int>, window: int, i: nat, k: nat)
    requires |calls| == |at| && i < k <= |calls| && ExpiringAdmitted(calls, at, window, i)
    requires forall j | i < j < k && calls[j].ran ::
               calls[j].now - Millis(window) < calls[i].now && at[i] <= at[j] <= at[i] + Millis(window + 60)
    ensures EntryOf(calls[i]) in KeyAt(calls, at, window, k).members
    ensures KeyAt(calls, at, window, k).expiresAt >= at[i] + Millis(window + 60)
  {
    if i == k - 1 {
    } else {
      RetainedExpiring(calls, at, window, i, k - 1);
    }
  }

  /**
   Clients are at most `ahead` and `behind` of Redis, network delay included, and no call carries a
   time more than `d` behind one that ran before it. Expiry asks less of the former than the
   window asks of the latter: the extra minute is in between.
   */
  ghost predicate Timed(calls: seq<Call>, at: seq<int>, ahead: int, behind: int, d: int): (timed: bool)
    ensures timed ==> |calls| == |at|
  {
    ClocksWithin(calls, at, ahead, behind) && SkewAtMost(calls, d)
  }

  /** An admission shortly before call `k` is counted by it: neither clock has let it go yet. */
  lemma CountedLaterExpiring(calls: seq<Call>, at: seq<int>, window: int, ahead: int, behind: int, d: nat,
                             i: nat, k: nat)
    requires Timed(calls, at, ahead, behind, d) && ahead + behind <= 60001 + d
    requires i < k < |calls| && ExpiringAdmitted(calls, at, window, i) && calls[k].ran
    requires calls[k].now - (Millis(window) - d) < calls[i].now
    ensures EntryOf(calls[i]) in LiveAt(calls, at, window, k)
  {
    forall j | i < j < k && calls[j].ran
      ensures calls[j].now - Millis(window) < calls[i].now && at[i] <= at[j] <= at[i] + Millis(window + 60)
    {
      assert at[j] <= at[k] && calls[j].now - d <= calls[k].now;
    }
    RetainedExpiring(calls, at, window, i, k);
  }

  /** The bound on members, distinct or not. */
  lemma ExpiringMembersBound(calls: seq<Call>, at: seq<int>, window: int, ahead: int, behind: int, d: nat,
                             lo: int, last: nat)
    requires Timed(calls, at, ahead, behind, d) && ahead + behind <= 60001 + d
    requires IsLast(ExpiringAdmittedIn(calls, at, window, lo, lo + Millis(window) - d), last)
    ensures |EntriesOf(calls, ExpiringAdmittedIn(calls, at, window, lo, lo + Millis(window) - d))| <= calls[last].limit
  {
    hide LiveAt, Timed, ExpiringAdmitted;
    var admitted := ExpiringAdmittedIn(calls, at, window, lo, lo + Millis(window) - d);
    ExpiringAdmittedIff(calls, at, window, last);
    forall i | i in admitted && i != last ensures EntryOf(calls[i]) in LiveAt(calls, at, window, last) {
      CountedLaterExpiring(calls, at, window, ahead, behind, d, i, last);
    }
    EntriesWithin(calls, admitted, last, LiveAt(calls, at, window, last), calls[last].limit);
  }

  /**
   The window bound of the key as it really is: with calls at most `d` out of order, every window
   of length W - d holds at most as many admissions as the limit of the last of them to arrive
   allows, while clients and network are within the minute, and `d`, of Redis.
   */
  lemma ExpiringWindowBound(calls: seq<Call>, at: seq<int>, window: int, ahead: int, behind: int, d: nat,
                            lo: int, last: nat)
    requires DistinctMembers(calls) && Timed(calls, at, ahead, behind, d) && ahead + behind <= 60001 + d
    requires IsLast(ExpiringAdmittedIn(calls, at, window, lo, lo + Millis(window) - d), last)
    ensures |ExpiringAdmittedIn(calls, at, window, lo, lo + Millis(window) - d)| <= calls[last].limit
  {
    hide ExpiringReplyAt, Timed;
    ExpiringMembersBound(calls, at, window, ahead, behind, d, lo, last);
    DistinctEntries(calls, ExpiringAdmittedIn(calls, at, window, lo, lo + Millis(window) - d));
  }

  /** Clocks within `ahead` and `behind` of Redis put calls at most their sum out of order. */
  lemma ClocksBoundSkew(calls: seq<Call>, at: seq<int>, ahead: int, behind: int)
    requires ClocksWithin(calls, at, ahead, behind)
    ensures Timed(calls, at, ahead, behind, ahead + behind)
  {
    forall i, j | 0 <= i < j < |calls| && calls[i].ran && calls[j].ran
      ensures calls[i].now - (ahead + behind) <= calls[j].now
    {
      assert at[i] <= at[j];
    }
  }

  /** Knowing the clocks alone, the bound holds in windows of W - (ahead + behind), however far they are. */
  lemma ClockWindowBound(calls: seq<Call>, at: seq<int>, window: int, ahead: int, behind: int, lo: int, last: nat)
    requires DistinctMembers(calls) && ClocksWithin(calls, at, ahead, behind)
    requires IsLast(ExpiringAdmittedIn(calls, at, window, lo, lo + Millis(window) - (ahead + behind)), last)
    ensures |ExpiringAdmittedIn(calls, at, window, lo, lo + Millis(window) - (ahead + behind))| <= calls[last].limit
  {
    hide ExpiringReplyAt;
    ClocksBoundSkew(calls, at, ahead, behind);
    assert ahead + behind >= 0 by {
      assert calls[last].ran;
    }
    ExpiringWindowBound(calls, at, window, ahead, behind, ahead + behind, lo, last);
  }

  /** The bound for the window that starts at `lo`. */
  ghost predicate Bounded(calls: seq<Call>, at: seq<int>, window: int, d: int, lo: int)
    requires |calls| == |at|
  {
    forall last: nat | IsLast(ExpiringAdmittedIn(calls, at, window, lo, lo + Millis(window) - d), last) ::
      |ExpiringAdmittedIn(calls, at, window, lo, lo + Millis(window) - d)| <= calls[last].limit
  }

  lemma BoundedWithin(calls: seq<Call>, at: seq<int>, window: int, ahead: int, behind: int, d: nat, lo: int)
    requires DistinctMembers(calls) && Timed(calls, at, ahead, behind, d) && ahead + behind <= 60001 + d
    ensures Bounded(calls, at, window, d, lo)
  {
    hide DistinctMembers, Timed, ExpiringReplyAt;
    forall last: nat | IsLast(ExpiringAdmittedIn(calls, at, window, lo, lo + Millis(window) - d), last)
      ensures |ExpiringAdmittedIn(calls, at, window, lo, lo + Millis(window) - d)| <= calls[last].limit
    {
      ExpiringWindowBound(calls, at, window, ahead, behind, d, lo, last);
    }
  }

  /** Two calls one millisecond too close for the window, the second just after the key expired. */
  function TooClose(window: int, d: int): seq<Call> {
    [Call(60002 + d, 1, 0, true), Call(Millis(window) + 60001, 1, 1, true)]
  }

  lemma TooCloseUnbounded(window: int, ahead: int, behind: int, d: nat)
    requires ahead + behind > 60001 + d && d < Millis(window)
    ensures DistinctMembers(TooClose(window, d))
    ensures Timed(TooClose(window, d), FarApartTimes(window, behind), ahead, behind, d)
    ensures !Bounded(TooClose(window, d), FarApartTimes(window, behind), window, d, 60002 + d)
  {
    var calls, at := TooClose(window, d), FarApartTimes(window, behind);
    var first, last := |calls| - 2, |calls| - 1;
    SecondCall(calls, at, window);
    assert KeyAt(calls, at, window, first) == ABSENT && Prune({}, calls[first].now - Millis(window)) == {};
    assert Prune({}, calls[last].now - Millis(window)) == {};
    assert ExpiringAdmitted(calls, at, window, first) && ExpiringAdmitted(calls, at, window, last);
    hide State, KeyAt, ExpiringAdmitted;
    assert ExpiringAdmittedIn(calls, at, window, 60002 + d, 60002 + d + Millis(window) - d) == {first, last};
    assert IsLast({first, last}, last);
  }

  /**
   For windows of W - d the bound holds of every run if and only if clients and network stay within
   60 seconds, `d` and the one millisecond a key outlasts of Redis.
   */
  lemma ExpiringWindowBoundIff(window: int, ahead: int, behind: int, d: nat)
    requires d < Millis(window)
    ensures (forall calls: seq<Call>, at: seq<int>, lo: int
               | DistinctMembers(calls) && Timed(calls, at, ahead, behind, d) :: Bounded(calls, at, window, d, lo))
       <==> ahead + behind <= 60001 + d
  {
    hide DistinctMembers, Timed, Bounded;
    if ahead + behind <= 60001 + d {
      forall calls: seq<Call>, at: seq<int>, lo: int | DistinctMembers(calls) && Timed(calls, at, ahead, behind, d)
        ensures Bounded(calls, at, window, d, lo)
      {
        BoundedWithin(calls, at, window, ahead, behind, d, lo);
      }
    } else {
      TooCloseUnbounded(window, ahead, behind, d);
    }
  }

  /** A denial is honest for the expiring key too, while clocks are within the extra minute. */
  lemma ExpiringDenialIsExact(calls: seq<Call>, at: seq<int>, window: int, ahead: int, behind: int,
                              limit: int, i: nat, j: nat, r: int)
    requires ahead + behind <= 60001 && ClocksWithin(calls, at, ahead, behind)
    requires FixedLimit(calls, limit) && limit >= 1
    requires i < j < |calls| && calls[i].ran && calls[j].ran
    requires !ExpiringReplyAt(calls, at, window, i).allowed && ExpiringReplyAt(calls, at, window, i).resetTime == r
    requires forall m | i < m < j && calls[m].ran :: calls[m].now < r
    ensures calls[i].now < r
    ensures ExpiringReplyAt(calls, at, window, j).allowed <==> r <= calls[j].now
    ensures !ExpiringReplyAt(calls, at, window, j).allowed ==> ExpiringReplyAt(calls, at, window, j).resetTime == r
  {
    hide ExpiringReplyAt, ReplyAt;
    SameReplies(calls, at, window, ahead, behind);
    assert ExpiringReplyAt(calls, at, window, i) == ReplyAt(calls, window, i);
    assert ExpiringReplyAt(calls, at, window, j) == ReplyAt(calls, window, j);
    assert NonNegativeTimes(calls);
    DenialIsExact(calls, window, limit, i, j, r);
  }
}
