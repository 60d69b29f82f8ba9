/**
 The Lua rate-limit script over one Redis sorted set, and what it guarantees over whole runs.

 A run lists the calls on one key in the order their scripts reach Redis. Each `now` was read
 on a client before that, so the times in a run need not be ordered.

 The set of this module never expires; `KeyExpiry` adds the script's EXPIRE.
 */
module LuaLimiter {
  import opened Timestamps

  /** A member of the sorted set, `now .. '-' .. math.random()`, whose score is `now`. */
  datatype Entry = Entry(score: int, nonce: nat)

  datatype Reply = Reply(allowed: bool, current: int, resetTime: int)

  /** One call; `ran` is false when the script never executed for it. */
  datatype Call = Call(now: int, limit: int, nonce: nat, ran: bool)

  /** ZREMRANGEBYSCORE key 0 windowStart. */
  function Prune(z: set<Entry>, windowStart: int): set<Entry> {
    set e | e in z && !(0 <= e.score <= windowStart)
  }

  function Scores(z: set<Entry>): set<int> {
    set e | e in z :: e.score
  }

  predicate IsOldest(z: set<Entry>, m: int) {
    m in Scores(z) && forall e | e in z :: m <= e.score
  }

  lemma {:induction false} OldestExists(z: set<Entry>)
    requires z != {}
    ensures exists m :: IsOldest(z, m)
    decreases |z|
  {
    var e :| e in z;
    var rest := z - {e};
    assert forall f :: f in z <==> f == e || f in rest;
    if rest == {} {
      assert IsOldest(z, e.score);
    } else {
      OldestExists(rest);
      var m :| IsOldest(rest, m);
      assert IsOldest(z, if e.score < m then e.score else m);
    }
  }

  /** The score ZRANGE key 0 0 WITHSCORES reports. */
  function OldestScore(z: set<Entry>): (m: int)
    requires z != {}
    ensures exists e :: e in z && e.score == m
    ensures forall e | e in z :: m <= e.score
  {
    OldestExists(z);
    var m :| m in Scores(z) && IsOldest(z, m);
    m
  }

  /** One atomic execution of the script: the set it leaves and the triple it returns. */
  function Eval(z: set<Entry>, now: int, window: int, limit: int, nonce: nat): (set<Entry>, Reply) {
    var live := Prune(z, now - Millis(window));
    if |live| >= limit then
      (live, Reply(false, |live|, if live == {} then now else OldestScore(live) + Millis(window)))
    else
      (live + {Entry(now, nonce)}, Reply(true, |live| + 1, now + Millis(window)))
  }

  /** The sorted set after the first `k` calls, from an absent key. */
  ghost function State(calls: seq<Call>, window: int, k: nat): set<Entry>
    requires k <= |calls|
  {
    if k == 0 then {}
    else
      var z, c := State(calls, window, k - 1), calls[k - 1];
      if c.ran then Eval(z, c.now, window, c.limit, c.nonce).0 else z
  }

  /** What the script answers to call `k`. */
  ghost function ReplyAt(calls: seq<Call>, window: int, k: nat): Reply
    requires k < |calls|
  {
    Eval(State(calls, window, k), calls[k].now, window, calls[k].limit, calls[k].nonce).1
  }

  ghost predicate Admitted(calls: seq<Call>, window: int, k: nat)
    requires k < |calls|
  {
    calls[k].ran && ReplyAt(calls, window, k).allowed
  }

  ghost function AdmittedIn(calls: seq<Call>, window: int, lo: int, hi: int): set<nat> {
    set i: nat | i < |calls| && Admitted(calls, window, i) && lo <= calls[i].now < hi
  }

  function EntryOf(c: Call): Entry {
    Entry(c.now, c.nonce)
  }

  /** The assumption behind `math.random()`: no two scripts add the same member. */
  ghost predicate DistinctMembers(calls: seq<Call>) {
    forall i, j | 0 <= i < j < |calls| && calls[i].ran && calls[j].ran :: EntryOf(calls[i]) != EntryOf(calls[j])
  }

  /** No script arrives with a time more than `d` behind one that arrived before it. */
  ghost predicate SkewAtMost(calls: seq<Call>, d: int) {
    forall i, j | 0 <= i < j < |calls| && calls[i].ran && calls[j].ran :: calls[i].now - d <= calls[j].now
  }

  ghost predicate FixedLimit(calls: seq<Call>, limit: int) {
    forall c | c in calls && c.ran :: c.limit == limit
  }

  // ---- The window bound ----

  /** An admission stays in the set until a call arrives a whole window after its time. */
  lemma {:induction false} Retained(calls: seq<Call>, window: int, i: nat, k: nat)
    requires i < k <= |calls| && Admitted(calls, window, i)
    requires forall j | i < j < k && calls[j].ran :: calls[j].now - Millis(window) < calls[i].now
    ensures EntryOf(calls[i]) in State(calls, window, k)
  {
    if i == k - 1 {
    } else {
      Retained(calls, window, i, k - 1);
    }
  }

  /** Under distinct members a call never finds its own member in the set. */
  lemma {:induction false} FreshMember(calls: seq<Call>, window: int, k: nat, i: nat)
    requires DistinctMembers(calls) && k <= i < |calls| && calls[i].ran
    ensures EntryOf(calls[i]) !in State(calls, window, k)
  {
    if k == 0 {
    } else {
      FreshMember(calls, window, k - 1, i);
    }
  }

  /** An admission shortly before call `k` is among the entries call `k` counts. */
  lemma CountedLater(calls: seq<Call>, window: int, d: nat, i: nat, k: nat)
    requires i < k < |calls| && Admitted(calls, window, i) && calls[k].ran
    requires SkewAtMost(calls, d)
    requires calls[k].now - (Millis(window) - d) < calls[i].now
    ensures EntryOf(calls[i]) in Prune(State(calls, window, k), calls[k].now - Millis(window))
  {
    forall j | i < j < k && calls[j].ran ensures calls[j].now - Millis(window) < calls[i].now {
      assert calls[j].now - d <= calls[k].now;
    }
    Retained(calls, window, i, k);
  }

  /** An admitted call counted fewer entries than its limit. */
  lemma AdmittedBelowLimit(calls: seq<Call>, window: int, k: nat)
    requires k < |calls|
    ensures Admitted(calls, window, k) <==>
              calls[k].ran && |Prune(State(calls, window, k), calls[k].now - Millis(window))| < calls[k].limit
  {
  }

  ghost predicate IsLast(s: set<nat>, last: nat) {
    last in s && forall i | i in s :: i <= last
  }

  /** The members that calls of a set would add. */
  ghost function EntriesOf(calls: seq<Call>, s: set<nat>): set<Entry>
    requires forall i | i in s :: i < |calls|
  {
    set i | i in s :: EntryOf(calls[i])
  }

  /** Members an admitted call counts, and its own, are within its limit. */
  lemma EntriesWithin(calls: seq<Call>, s: set<nat>, last: nat, live: set<Entry>, limit: int)
    requires last in s && |live| < limit
    requires forall i | i in s :: i < |calls| && (i == last || EntryOf(calls[i]) in live)
    ensures |EntriesOf(calls, s)| <= limit
  {
    SubsetSize(EntriesOf(calls, s), live + {EntryOf(calls[last])});
  }

  /**
   With clocks at most `d` apart, and whether or not members are distinct, the admissions of a
   window of length W - d have added at most as many members as the limit of the last to arrive.
   */
  lemma WindowMembersBound(calls: seq<Call>, window: int, d: nat, lo: int, last: nat)
    requires SkewAtMost(calls, d) && IsLast(AdmittedIn(calls, window, lo, lo + Millis(window) - d), last)
    ensures |EntriesOf(calls, AdmittedIn(calls, window, lo, lo + Millis(window) - d))| <= calls[last].limit
  {
    var admitted := AdmittedIn(calls, window, lo, lo + Millis(window) - d);
    var live := Prune(State(calls, window, last), calls[last].now - Millis(window));
    forall i | i in admitted && i != last ensures EntryOf(calls[i]) in live {
      CountedLater(calls, window, d, i, last);
    }
    AdmittedBelowLimit(calls, window, last);
    EntriesWithin(calls, admitted, last, live, calls[last].limit);
  }

  /** Distinct members are as many as the calls that added them. */
  lemma {:induction false} DistinctEntries(calls: seq<Call>, s: set<nat>)
    requires DistinctMembers(calls) && forall i | i in s :: i < |calls| && calls[i].ran
    ensures |EntriesOf(calls, s)| == |s|
    decreases |s|
  {
    if s == {} {
      assert EntriesOf(calls, s) == {};
    } else {
      var i :| i in s;
      DistinctEntries(calls, s - {i});
      assert EntriesOf(calls, s) == EntriesOf(calls, s - {i}) + {EntryOf(calls[i])};
    }
  }

  /**
   With clocks at most `d` apart, every window of length W - d holds at most as many
   admissions as the limit of the last of them to arrive allows.
   */
  lemma WindowBound(calls: seq<Call>, window: int, d: nat, lo: int, last: nat)
    requires DistinctMembers(calls) && SkewAtMost(calls, d)
    requires IsLast(AdmittedIn(calls, window, lo, lo + Millis(window) - d), last)
    ensures |AdmittedIn(calls, window, lo, lo + Millis(window) - d)| <= calls[last].limit
  {
    WindowMembersBound(calls, window, d, lo, last);
    DistinctEntries(calls, AdmittedIn(calls, window, lo, lo + Millis(window) - d));
  }

  // ---- How sharp the bound is ----

  /** One admitted call, when the set before it and what it counts are known. */
  lemma StateStep(calls: seq<Call>, window: int, k: nat, z: set<Entry>, live: set<Entry>)
    requires k < |calls| && calls[k].ran && State(calls, window, k) == z
    requires live == Prune(z, calls[k].now - Millis(window)) && |live| < calls[k].limit
    ensures Admitted(calls, window, k)
    ensures State(calls, window, k + 1) == live + {EntryOf(calls[k])}
  {
  }

  lemma StateStart(calls: seq<Call>, window: int)
    ensures State(calls, window, 0) == {}
  {
  }

  /** `limit` calls at once, one a window later, and `limit - 1` more from `d` before that one. */
  function CloseCalls(w: int, d: int, limit: nat): (calls: seq<Call>)
    ensures |calls| == 2 * limit && forall i | 0 <= i < |calls| :: calls[i].ran && calls[i].limit == limit
  {
    seq(2 * limit, i requires 0 <= i < 2 * limit =>
      Call(if i < limit then 0 else if i == limit then w else w - d, limit, i, true))
  }

  /** The members of calls `first` up to `end`, which share one time. */
  function Burst(now: int, first: nat, end: nat): set<Entry> {
    set n: nat | first <= n < end :: Entry(now, n)
  }

  lemma {:induction false} BurstSize(now: int, first: nat, end: nat)
    requires first <= end
    ensures |Burst(now, first, end)| == end - first
    decreases end
  {
    if first == end {
      assert Burst(now, first, end) == {};
    } else {
      BurstSize(now, first, end - 1);
      assert Burst(now, first, end) == Burst(now, first, end - 1) + {Entry(now, end - 1)};
    }
  }

  /** The set after `k` of the close calls: the later call has pruned what the first ones added. */
  function CloseState(w: int, d: int, limit: nat, k: nat): set<Entry> {
    if k <= limit then Burst(0, 0, k) else {Entry(w, limit)} + Burst(w - d, limit + 1, k)
  }

  lemma BurstNext(now: int, first: nat, end: nat)
    requires first <= end
    ensures Burst(now, first, end + 1) == Burst(now, first, end) + {Entry(now, end)}
  {
  }

  lemma PruneNothing(z: set<Entry>, windowStart: int)
    requires windowStart < 0 || forall e | e in z :: e.score > windowStart
    ensures Prune(z, windowStart) == z
  {
  }

  lemma CloseStart(w: int, d: int, limit: nat)
    ensures CloseState(w, d, limit, 0) == {}
  {
  }

  lemma CloseStepEarly(w: int, limit: nat, k: nat)
    requires w >= 1 && k < limit
    ensures var z := Burst(0, 0, k);
            Prune(z, 0 - w) == z && |z| < limit && Burst(0, 0, k + 1) == z + {Entry(0, k)}
  {
    hide Burst, Prune;
    PruneNothing(Burst(0, 0, k), 0 - w);
    BurstSize(0, 0, k);
    BurstNext(0, 0, k);
  }

  lemma CloseStepPruning(w: int, d: int, limit: nat)
    ensures Prune(Burst(0, 0, limit), w - w) == {}
    ensures {Entry(w, limit)} + Burst(w - d, limit + 1, limit + 1) == {} + {Entry(w, limit)}
  {
  }

  lemma OneMoreMember(e: Entry, z: set<Entry>, f: Entry)
    ensures |{e} + z| <= 1 + |z| && {e} + (z + {f}) == ({e} + z) + {f}
  {
  }

  lemma LateScores(w: int, d: int, limit: nat, k: nat)
    requires 0 <= d <= w && w >= 1
    ensures var t := w - d - w;
            t < 0 || forall e | e in {Entry(w, limit)} + Burst(w - d, limit + 1, k) :: e.score > t
  {
  }

  lemma CloseStepLate(w: int, d: int, limit: nat, k: nat)
    requires 0 <= d <= w && w >= 1 && limit < k < 2 * limit
    ensures var z := {Entry(w, limit)} + Burst(w - d, limit + 1, k);
            && Prune(z, w - d - w) == z && |z| < limit
            && {Entry(w, limit)} + Burst(w - d, limit + 1, k + 1) == z + {Entry(w - d, k)}
  {
    hide *;
    var burst := Burst(w - d, limit + 1, k);
    BurstSize(w - d, limit + 1, k);
    BurstNext(w - d, limit + 1, k);
    LateScores(w, d, limit, k);
    PruneNothing({Entry(w, limit)} + burst, w - d - w);
    OneMoreMember(Entry(w, limit), burst, Entry(w - d, k));
  }

  lemma CloseStep(w: int, d: int, limit: nat, k: nat)
    requires 0 <= d <= w && w >= 1 && limit >= 1 && k < 2 * limit
    ensures var c := CloseCalls(w, d, limit)[k];
            var live := Prune(CloseState(w, d, limit, k), c.now - w);
            |live| < limit && CloseState(w, d, limit, k + 1) == live + {EntryOf(c)}
  {
    hide Burst, Prune;
    if k < limit {
      CloseStepEarly(w, limit, k);
    } else if k == limit {
      CloseStepPruning(w, d, limit);
    } else {
      CloseStepLate(w, d, limit, k);
    }
  }

  lemma MillisPositive(window: int)
    requires window > 0
    ensures Millis(window) >= 1000
  {
  }

  lemma {:induction false} CloseCallsAdmitted(window: int, d: int, limit: nat, k: nat)
    requires 0 <= d <= Millis(window) && window > 0 && limit >= 1 && k <= 2 * limit
    ensures State(CloseCalls(Millis(window), d, limit), window, k) == CloseState(Millis(window), d, limit, k)
    ensures forall i | 0 <= i < k :: Admitted(CloseCalls(Millis(window), d, limit), window, i)
  {
    hide *;
    if k == 0 {
      StateStart(CloseCalls(Millis(window), d, limit), window);
      CloseStart(Millis(window), d, limit);
    } else {
      var w, calls := Millis(window), CloseCalls(Millis(window), d, limit);
      MillisPositive(window);
      CloseCallsAdmitted(window, d, limit, k - 1);
      CloseStep(w, d, limit, k - 1);
      StateStep(calls, window, k - 1, CloseState(w, d, limit, k - 1),
                Prune(CloseState(w, d, limit, k - 1), calls[k - 1].now - w));
    }
  }

  function Indices(n: nat): (s: set<nat>)
    ensures |s| == n && forall i: nat :: i in s <==> i < n
  {
    if n == 0 then {} else Indices(n - 1) + {n - 1}
  }

  /**
   The length is exact: for every limit L and skew d <= W some run puts 2L - 1 admissions, more
   than L once L is 2, into a window only one millisecond longer; without skew even 2L.
   */
  lemma WindowBoundIsTight(window: int, d: int, limit: nat)
    requires 0 <= d <= Millis(window) && window > 0 && limit >= 1
    ensures var calls := CloseCalls(Millis(window), d, limit);
            && DistinctMembers(calls) && SkewAtMost(calls, d) && FixedLimit(calls, limit)
            && |AdmittedIn(calls, window, 0, Millis(window) - d + 1)| == if d == 0 then 2 * limit else 2 * limit - 1
  {
    hide *;
    MillisPositive(window);
    CloseCallsAdmitted(window, d, limit, 2 * limit);
    CloseCallsApart(Millis(window), d, limit);
    CloseCallsCounted(window, d, limit);
  }

  lemma CloseCallsApart(w: int, d: int, limit: nat)
    requires 0 <= d <= w && w >= 1
    ensures var calls := CloseCalls(w, d, limit);
            DistinctMembers(calls) && SkewAtMost(calls, d) && FixedLimit(calls, limit)
  {
  }

  lemma CloseCallsCounted(window: int, d: int, limit: nat)
    requires 0 <= d <= Millis(window) && window > 0 && limit >= 1
    requires forall i | 0 <= i < 2 * limit :: Admitted(CloseCalls(Millis(window), d, limit), window, i)
    ensures |AdmittedIn(CloseCalls(Millis(window), d, limit), window, 0, Millis(window) - d + 1)|
         == if d == 0 then 2 * limit else 2 * limit - 1
  {
    hide Admitted, Indices;
    assert AdmittedIn(CloseCalls(Millis(window), d, limit), window, 0, Millis(window) - d + 1)
        == if d == 0 then Indices(2 * limit) else Indices(2 * limit) - {limit};
  }

  /** One step under limit 1, on a set of at most one member. */
  lemma LimitOneStep(calls: seq<Call>, window: int, k: nat)
    requires FixedLimit(calls, 1) && k < |calls|
    ensures var z, c := State(calls, window, k), calls[k];
            var live := Prune(z, c.now - Millis(window));
            && (Admitted(calls, window, k) <==> c.ran && live == {})
            && State(calls, window, k + 1) == if !c.ran then z else if live == {} then {EntryOf(c)} else live
  {
    assert calls[k] in calls;
    var live := Prune(State(calls, window, k), calls[k].now - Millis(window));
    assert live == {} || |live| >= 1;
  }

  lemma PruneOne(e: Entry, t: int)
    ensures Prune({e}, t) == if 0 <= e.score <= t then {} else {e}
  {
  }

  /** Under limit 1 the set holds the last admission and nothing else. */
  lemma {:induction false} OneKept(calls: seq<Call>, window: int, i: nat, k: nat) returns (last: nat)
    requires FixedLimit(calls, 1) && i < k <= |calls| && Admitted(calls, window, i)
    ensures i <= last < k && Admitted(calls, window, last) && State(calls, window, k) == {EntryOf(calls[last])}
  {
    hide *;
    LimitOneStep(calls, window, k - 1);
    if i == k - 1 {
      last := i;
    } else {
      last := OneKept(calls, window, i, k - 1);
      PruneOne(EntryOf(calls[last]), calls[k - 1].now - Millis(window));
      if Admitted(calls, window, k - 1) {
        last := k - 1;
      }
    }
  }

  /** Under limit 1 admissions are a whole window apart, whatever the clocks do. */
  lemma {:induction false} LimitOneApart(calls: seq<Call>, window: int, i: nat, j: nat)
    requires FixedLimit(calls, 1) && window >= 0 && i < j < |calls|
    requires Admitted(calls, window, i) && Admitted(calls, window, j)
    ensures calls[i].now + Millis(window) <= calls[j].now
    decreases j
  {
    hide Admitted, State, Prune;
    var last := OneKept(calls, window, i, j);
    LimitOneStep(calls, window, j);
    PruneOne(EntryOf(calls[last]), calls[j].now - Millis(window));
    if last != i {
      LimitOneApart(calls, window, i, last);
    }
  }

  function SharedMember(n: nat, limit: int): (calls: seq<Call>)
    ensures |calls| == n && forall i | 0 <= i < n :: calls[i] == Call(0, limit, 0, true)
  {
    seq(n, _ => Call(0, limit, 0, true))
  }

  lemma SharedStep(window: int, limit: int, z: set<Entry>)
    requires window > 0 && (z == {} || z == {Entry(0, 0)})
    ensures Prune(z, 0 - Millis(window)) == z && |z| <= 1 && z + {EntryOf(Call(0, limit, 0, true))} == {Entry(0, 0)}
  {
    PruneNothing(z, 0 - Millis(window));
  }

  lemma {:induction false} SharedMemberAdmitted(window: int, limit: int, n: nat, k: nat)
    requires window > 0 && limit >= 2 && k <= n
    ensures State(SharedMember(n, limit), window, k) == if k == 0 then {} else {Entry(0, 0)}
    ensures forall i | 0 <= i < k :: Admitted(SharedMember(n, limit), window, i)
  {
    hide *;
    if k == 0 {
      StateStart(SharedMember(n, limit), window);
    } else {
      var z := if k == 1 then {} else {Entry(0, 0)};
      SharedMemberAdmitted(window, limit, n, k - 1);
      SharedStep(window, limit, z);
      StateStep(SharedMember(n, limit), window, k - 1, z, z);
    }
  }

  /** Distinct members are needed: when all scripts add one member, every limit above 1 admits any number. */
  lemma SharedMemberBreaksBound(window: int, limit: int, n: nat)
    requires window > 0 && limit >= 2
    ensures SkewAtMost(SharedMember(n, limit), 0) && FixedLimit(SharedMember(n, limit), limit)
    ensures |AdmittedIn(SharedMember(n, limit), window, 0, Millis(window))| == n
  {
    SharedMemberAdmitted(window, limit, n, n);
    hide Admitted;
    assert AdmittedIn(SharedMember(n, limit), window, 0, Millis(window)) == Indices(n);
  }

  // ---- Waiting out a denial ----

  ghost predicate NonNegativeTimes(calls: seq<Call>) {
    forall c | c in calls && c.ran :: c.now >= 0
  }

  lemma EvalBounded(z: set<Entry>, now: int, window: int, limit: int, nonce: nat)
    requires |z| <= limit && now >= 0 && forall e | e in z :: e.score >= 0
    ensures |Eval(z, now, window, limit, nonce).0| <= limit
    ensures forall e | e in Eval(z, now, window, limit, nonce).0 :: e.score >= 0
  {
    SubsetSize(Prune(z, now - Millis(window)), z);
  }

  lemma {:induction false} StateBounded(calls: seq<Call>, window: int, limit: int, k: nat)
    requires FixedLimit(calls, limit) && NonNegativeTimes(calls) && k <= |calls| && limit >= 0
    ensures |State(calls, window, k)| <= limit
    ensures forall e | e in State(calls, window, k) :: e.score >= 0
  {
    if k == 0 {
    } else {
      StateBounded(calls, window, limit, k - 1);
      var c := calls[k - 1];
      assert c in calls;
      if c.ran {
        EvalBounded(State(calls, window, k - 1), c.now, window, c.limit, c.nonce);
      }
    }
  }

  lemma {:induction false} SubsetSize<T>(a: set<T>, b: set<T>)
    requires a <= b
    ensures |a| <= |b|
    decreases |a|
  {
    if a == {} {
    } else {
      var x :| x in a;
      SubsetSize(a - {x}, b - {x});
    }
  }

  /** One call at a full set whose members all have non-negative scores. */
  lemma FullSetStep(z: set<Entry>, now: int, window: int, limit: int, nonce: nat)
    requires |z| <= limit && limit >= 1 && forall e | e in z :: e.score >= 0
    ensures !Eval(z, now, window, limit, nonce).1.allowed ==>
              z != {} && Eval(z, now, window, limit, nonce) == (z, Reply(false, limit, OldestScore(z) + Millis(window)))
              && |z| == limit
              && now < OldestScore(z) + Millis(window)
    ensures |z| == limit && z != {} ==>
              (Eval(z, now, window, limit, nonce).1.allowed <==> OldestScore(z) + Millis(window) <= now)
  {
    var live := Prune(z, now - Millis(window));
    SubsetSize(live, z);
    if |live| == |z| {
      SubsetSameSize(live, z);
    }
    if z != {} {
      if OldestScore(z) + Millis(window) <= now {
        var e :| e in z && e.score == OldestScore(z);
        SubsetSize(live, z - {e});
      } else {
        assert live == z;
      }
    }
  }

  lemma {:induction false} SubsetSameSize<T>(a: set<T>, b: set<T>)
    requires a <= b && |a| == |b|
    ensures a == b
  {
    if x :| x in b && x !in a {
      SubsetSize(a, b - {x});
    }
  }

  /** Between a denial and its reset time `r` nothing changes in the set. */
  lemma {:induction false} FrozenUntilReset(calls: seq<Call>, window: int, limit: int, i: nat, j: nat, r: int)
    requires FixedLimit(calls, limit) && NonNegativeTimes(calls) && limit >= 1
    requires i < j <= |calls| && calls[i].ran && ReplyAt(calls, window, i) == Reply(false, limit, r)
    requires r == OldestOf(State(calls, window, i)) + Millis(window)
    requires |State(calls, window, i)| == limit && forall e | e in State(calls, window, i) :: e.score >= 0
    requires forall m | i < m < j && calls[m].ran :: calls[m].now < r
    ensures State(calls, window, j) == State(calls, window, i)
  {
    var c := calls[j - 1];
    assert c in calls;
    if i + 1 < j {
      FrozenUntilReset(calls, window, limit, i, j - 1, r);
      FullSetStep(State(calls, window, i), c.now, window, limit, c.nonce);
    } else {
      FullSetStep(State(calls, window, i), c.now, window, limit, c.nonce);
    }
  }

  /** The oldest score, or 0 for the empty set. */
  function OldestOf(z: set<Entry>): int {
    if z == {} then 0 else OldestScore(z)
  }

  /**
   A denial is honest: its reset time lies ahead, every call before that time is denied with
   the same reset time, and the first call at or after it is admitted.
   */
  lemma DenialIsExact(calls: seq<Call>, window: int, limit: int, i: nat, j: nat, r: int)
    requires FixedLimit(calls, limit) && NonNegativeTimes(calls) && limit >= 1
    requires i < j < |calls| && calls[i].ran && calls[j].ran
    requires !ReplyAt(calls, window, i).allowed && ReplyAt(calls, window, i).resetTime == r
    requires forall m | i < m < j && calls[m].ran :: calls[m].now < r
    ensures calls[i].now < r
    ensures ReplyAt(calls, window, j).allowed <==> r <= calls[j].now
    ensures !ReplyAt(calls, window, j).allowed ==> ReplyAt(calls, window, j).resetTime == r
  {
    assert calls[i] in calls && calls[j] in calls;
    StateBounded(calls, window, limit, i);
    FullSetStep(State(calls, window, i), calls[i].now, window, limit, calls[i].nonce);
    FrozenUntilReset(calls, window, limit, i, j, r);
    FullSetStep(State(calls, window, i), calls[j].now, window, limit, calls[j].nonce);
  }
}
