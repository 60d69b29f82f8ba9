/**
 Runs of the whole rate-limiter service: many clients and endpoints, a Redis whose keys expire
 and that may fail before or after a script takes effect, and the in-memory fallback of one
 server with its periodic cleanup.
 */
module RateLimiterRuns {
  import opened Timestamps
  import opened LuaLimiter
  import opened KeyExpiry
  import opened MemoryLimiter
  import opened LimiterEquivalence
  import opened Optional

  /** How far a call to Redis got: answered, or failed before or after the script took effect. */
  datatype Link = Answered | LostBefore | LostAfter

  /**
   A check, or a periodic cleanup of memory. `now` is read before the script is sent, `at` is the
   Redis time when it runs, and `fallbackNow` is read after it failed.
   */
  datatype Step =
    | Request(clientId: string, endpoint: Option<string>, maxRequests: Option<int>,
              now: int, nonce: nat, link: Link, at: int, fallbackNow: int)
    | Sweep(sweptAt: int)

  datatype Config = Config(window: int, max: int)

  datatype Service = Service(redis: map<string, Key>, memory: map<string, seq<int>>)

  function RedisKey(clientId: string, endpoint: Option<string>): string {
    "rate_limit:" + clientId + (if endpoint.Some? then ":" + endpoint.value else "")
  }

  /** `maxRequests || this.maxRequests`: a missing or zero limit means the default. */
  function EffectiveLimit(maxRequests: Option<int>, max: int): int {
    if maxRequests.Some? && maxRequests.value != 0 then maxRequests.value else max
  }

  function KeyIn(redis: map<string, Key>, key: string): Key {
    if key in redis then redis[key] else ABSENT
  }

  /** The script call of a request. */
  function CallOf(r: Step, max: int): Call
    requires r.Request?
  {
    Call(r.now, EffectiveLimit(r.maxRequests, max), r.nonce, true)
  }

  /** One `checkRateLimit` or `checkRateLimitForEndpoint` call. */
  function Handle(s: Service, r: Step, cfg: Config): (Service, Decision)
    requires r.Request?
  {
    var key, call := RedisKey(r.clientId, r.endpoint), CallOf(r, cfg.max);
    var (k, reply) := EvalExpiring(KeyIn(s.redis, key), call, cfg.window, r.at);
    var redis := if r.link == LostBefore then s.redis else s.redis[key := k];
    if r.link == Answered then (Service(redis, s.memory), DecisionOf(reply, call.limit))
    else
      var (ts, decision) := Check(Get(s.memory, r.clientId), r.fallbackNow, cfg.window, cfg.max);
      (Service(redis, s.memory[r.clientId := ts]), decision)
  }

  function Next(s: Service, r: Step, cfg: Config): Service {
    if r.Sweep? then s.(memory := CleanStore(s.memory, r.sweptAt - Millis(cfg.window))) else Handle(s, r, cfg).0
  }

  function StateAt(rs: seq<Step>, cfg: Config, k: nat): Service
    requires k <= |rs|
  {
    if k == 0 then Service(map[], map[]) else Next(StateAt(rs, cfg, k - 1), rs[k - 1], cfg)
  }

  function AnswerAt(rs: seq<Step>, cfg: Config, k: nat): Decision
    requires k < |rs| && rs[k].Request?
  {
    Handle(StateAt(rs, cfg, k), rs[k], cfg).1
  }

  lemma StateAfterStep(rs: seq<Step>, cfg: Config, k: nat)
    requires k < |rs|
    ensures StateAt(rs, cfg, k + 1) == Next(StateAt(rs, cfg, k), rs[k], cfg)
  {
    hide Next;
  }

  // ---- One key of Redis ----

  function KeyOf(r: Step): string
    requires r.Request?
  {
    RedisKey(r.clientId, r.endpoint)
  }

  /** The step runs its script on `key`. */
  predicate RunsOn(r: Step, key: string) {
    r.Request? && r.link != LostBefore && KeyOf(r) == key
  }

  /** The run as one key sees it: other steps never run their script on it. */
  function OnKey(rs: seq<Step>, cfg: Config, key: string): (calls: seq<Call>)
    ensures |calls| == |rs|
  {
    seq(|rs|, i requires 0 <= i < |rs| =>
      if rs[i].Request? then CallOf(rs[i], cfg.max).(ran := RunsOn(rs[i], key)) else Call(0, 0, 0, false))
  }

  /** The Redis times of a run. */
  function Ats(rs: seq<Step>): (at: seq<int>)
    ensures |at| == |rs|
  {
    seq(|rs|, i requires 0 <= i < |rs| => if rs[i].Request? then rs[i].at else 0)
  }

  /** What one step does to a key of Redis. */
  lemma NextOnKey(s: Service, r: Step, cfg: Config, key: string)
    ensures KeyIn(Next(s, r, cfg).redis, key) ==
            if RunsOn(r, key) then EvalExpiring(KeyIn(s.redis, key), CallOf(r, cfg.max), cfg.window, r.at).0
            else KeyIn(s.redis, key)
  {
    hide EvalExpiring, Check, RedisKey, CleanStore;
  }

  /** The step checks client `c` in memory. */
  predicate FallsBack(r: Step, c: string) {
    r.Request? && r.link != Answered && r.clientId == c
  }

  /** What one step does to a client's list in memory. */
  lemma NextInMemory(s: Service, r: Step, cfg: Config, c: string)
    ensures Get(Next(s, r, cfg).memory, c) ==
            if r.Sweep? then After(Get(s.memory, c), r.sweptAt - Millis(cfg.window))
            else if FallsBack(r, c) then Check(Get(s.memory, c), r.fallbackNow, cfg.window, cfg.max).0
            else Get(s.memory, c)
  {
    hide EvalExpiring, Check, RedisKey;
  }

  /** A run of the whole service acts on each key as a run of the script on an expiring key. */
  lemma {:induction false} RedisProjection(rs: seq<Step>, cfg: Config, key: string, k: nat)
    requires k <= |rs|
    ensures KeyIn(StateAt(rs, cfg, k).redis, key) == KeyAt(OnKey(rs, cfg, key), Ats(rs), cfg.window, k)
  {
    hide EvalExpiring, Next, KeyIn, RunsOn, OnKey, Ats;
    if k == 0 {
      EmptyService(key);
    } else {
      RedisProjection(rs, cfg, key, k - 1);
      NextOnKey(StateAt(rs, cfg, k - 1), rs[k - 1], cfg, key);
      CallOnKey(rs, cfg, key, k - 1);
    }
  }

  lemma EmptyService(key: string)
    ensures KeyIn(Service(map[], map[]).redis, key) == ABSENT
  {
  }

  /** The call a key sees in step `k`. */
  lemma CallOnKey(rs: seq<Step>, cfg: Config, key: string, k: nat)
    requires k < |rs|
    ensures OnKey(rs, cfg, key)[k].ran <==> RunsOn(rs[k], key)
    ensures RunsOn(rs[k], key) ==> OnKey(rs, cfg, key)[k] == CallOf(rs[k], cfg.max) && Ats(rs)[k] == rs[k].at
  {
    hide RedisKey;
  }

  /** What Redis answers to request `k` is the reply of the script on its key. */
  lemma AnswerIsReply(rs: seq<Step>, cfg: Config, k: nat)
    requires k < |rs| && rs[k].Request? && rs[k].link == Answered
    ensures AnswerAt(rs, cfg, k) ==
            DecisionOf(ExpiringReplyAt(OnKey(rs, cfg, KeyOf(rs[k])), Ats(rs), cfg.window, k),
                       CallOf(rs[k], cfg.max).limit)
    ensures OnKey(rs, cfg, KeyOf(rs[k]))[k].ran
  {
    RedisProjection(rs, cfg, KeyOf(rs[k]), k);
    CallOnKey(rs, cfg, KeyOf(rs[k]), k);
    hide EvalExpiring, StateAt, KeyAt, KeyIn, RedisKey, OnKey, Ats;
  }

  /** The requests on `key` that Redis answered with an admission stamped in [lo, hi). */
  ghost function RedisAllowed(rs: seq<Step>, cfg: Config, key: string, lo: int, hi: int): set<nat> {
    set i: nat | i < |rs| && rs[i].Request? && KeyOf(rs[i]) == key && rs[i].link == Answered
                 && AnswerAt(rs, cfg, i).allowed && lo <= rs[i].now < hi
  }

  lemma RedisAllowedAdmitted(rs: seq<Step>, cfg: Config, key: string, lo: int, hi: int)
    ensures RedisAllowed(rs, cfg, key, lo, hi) <= ExpiringAdmittedIn(OnKey(rs, cfg, key), Ats(rs), cfg.window, lo, hi)
  {
    hide AnswerAt, ExpiringReplyAt, RedisKey;
    forall i | i in RedisAllowed(rs, cfg, key, lo, hi)
      ensures i in ExpiringAdmittedIn(OnKey(rs, cfg, key), Ats(rs), cfg.window, lo, hi)
    {
      AnswerIsReply(rs, cfg, i);
    }
  }

  lemma {:induction false} LastExists(s: set<nat>) returns (last: nat)
    requires s != {}
    ensures IsLast(s, last)
    decreases |s|
  {
    last :| last in s;
    if s - {last} == {} {
      assert s == {last};
    } else {
      var other := LastExists(s - {last});
      forall i | i in s ensures i <= (if other > last then other else last) {
        assert i == last || i in s - {last};
      }
      last := if other > last then other else last;
    }
  }

  /** Every script of the run was given at most this limit. */
  ghost predicate LimitsAtMost(calls: seq<Call>, limit: int) {
    forall i | 0 <= i < |calls| && calls[i].ran :: calls[i].limit <= limit
  }

  /**
   Scripts on `key` add distinct members and run at most `d` out of order, and their clients are
   `ahead` and `behind` of Redis by no more than `d` and the minute of expiry.
   */
  ghost predicate WellTimed(rs: seq<Step>, cfg: Config, key: string, ahead: int, behind: int, d: int) {
    && DistinctMembers(OnKey(rs, cfg, key)) && ahead + behind <= 60001 + d
    && Timed(OnKey(rs, cfg, key), Ats(rs), ahead, behind, d)
  }

  lemma AnyWindowBound(calls: seq<Call>, at: seq<int>, window: int, ahead: int, behind: int, d: nat,
                       lo: int, limit: nat)
    requires DistinctMembers(calls) && Timed(calls, at, ahead, behind, d) && ahead + behind <= 60001 + d
    requires LimitsAtMost(calls, limit)
    ensures |ExpiringAdmittedIn(calls, at, window, lo, lo + Millis(window) - d)| <= limit
  {
    hide DistinctMembers, Timed, ExpiringReplyAt;
    var admitted := ExpiringAdmittedIn(calls, at, window, lo, lo + Millis(window) - d);
    if admitted != {} {
      var last := LastExists(admitted);
      ExpiringWindowBound(calls, at, window, ahead, behind, d, lo, last);
      assert calls[last].ran;
    }
  }

  /** Failures of either kind, other keys and expiry leave the window bound of a key in place. */
  lemma RedisWindowBound(rs: seq<Step>, cfg: Config, key: string, ahead: int, behind: int, d: nat, lo: int, limit: nat)
    requires WellTimed(rs, cfg, key, ahead, behind, d) && LimitsAtMost(OnKey(rs, cfg, key), limit)
    ensures |RedisAllowed(rs, cfg, key, lo, lo + Millis(cfg.window) - d)| <= limit
  {
    hide DistinctMembers, Timed, LimitsAtMost, OnKey, Ats, RedisAllowed, ExpiringAdmittedIn;
    var hi := lo + Millis(cfg.window) - d;
    RedisAllowedAdmitted(rs, cfg, key, lo, hi);
    AnyWindowBound(OnKey(rs, cfg, key), Ats(rs), cfg.window, ahead, behind, d, lo, limit);
    SubsetSize(RedisAllowed(rs, cfg, key, lo, hi),
               ExpiringAdmittedIn(OnKey(rs, cfg, key), Ats(rs), cfg.window, lo, hi));
  }

  // ---- The memory of one server ----

  /** The step reads the clock to check or clean the memory. */
  predicate TouchesMemory(r: Step) {
    r.Sweep? || r.link != Answered
  }

  function MemoryTime(r: Step): int {
    if r.Sweep? then r.sweptAt else r.fallbackNow
  }

  /** Times read for the memory are positive and never step back. */
  ghost predicate FallbackClock(rs: seq<Step>) {
    && (forall i | 0 <= i < |rs| && TouchesMemory(rs[i]) :: MemoryTime(rs[i]) > 0)
    && (forall i, j | 0 <= i < j < |rs| && TouchesMemory(rs[i]) && TouchesMemory(rs[j]) ::
          MemoryTime(rs[i]) <= MemoryTime(rs[j]))
  }

  /** The request was admitted by the memory of client `c`, with a stamp in [lo, hi). */
  predicate AllowedInMemory(rs: seq<Step>, cfg: Config, c: string, lo: int, hi: int, i: nat)
    requires i < |rs|
  {
    FallsBack(rs[i], c) && AnswerAt(rs, cfg, i).allowed && lo <= rs[i].fallbackNow < hi
  }

  /** The requests of a client, on any endpoint, that memory admitted with a stamp in [lo, hi). */
  ghost function MemoryAllowed(rs: seq<Step>, cfg: Config, c: string, lo: int, hi: int, k: nat): set<nat>
    requires k <= |rs|
  {
    set i: nat | i < k && AllowedInMemory(rs, cfg, c, lo, hi, i)
  }

  /** Every stamp memory ever admitted for a client. */
  ghost function History(rs: seq<Step>, cfg: Config, c: string, k: nat): seq<int>
    requires k <= |rs|
  {
    if k == 0 then []
    else
      var h, r := History(rs, cfg, c, k - 1), rs[k - 1];
      if FallsBack(r, c) then NaiveCheck(h, r.fallbackNow, cfg.window, cfg.max).0 else h
  }

  /** The last time read for the memory in the first `k` steps, or 1. */
  ghost function LastRead(rs: seq<Step>, k: nat): int
    requires k <= |rs|
  {
    if k == 0 then 1
    else if TouchesMemory(rs[k - 1]) then MemoryTime(rs[k - 1]) else LastRead(rs, k - 1)
  }

  lemma {:induction false} LastReadBelow(rs: seq<Step>, k: nat)
    requires FallbackClock(rs) && k <= |rs|
    ensures LastRead(rs, k) > 0
    ensures forall j | k <= j < |rs| && TouchesMemory(rs[j]) :: LastRead(rs, k) <= MemoryTime(rs[j])
  {
    if k == 0 {
    } else {
      LastReadBelow(rs, k - 1);
    }
  }

  /** Memory and history of client `c` agree, and the history keeps every window within the default. */
  ghost predicate HistoryKept(rs: seq<Step>, cfg: Config, c: string, k: nat)
    requires k <= |rs|
  {
    && Agree(Get(StateAt(rs, cfg, k).memory, c), History(rs, cfg, c, k), LastRead(rs, k), cfg.window)
    && WindowsBounded(History(rs, cfg, c, k), cfg.window, cfg.max)
  }

  /** What a step adds to the history of client `c`, once memory and history agree. */
  lemma HistoryStep(rs: seq<Step>, cfg: Config, c: string, k: nat)
    requires FallbackClock(rs) && 0 < k <= |rs| && cfg.max >= 0 && HistoryKept(rs, cfg, c, k - 1)
    ensures HistoryKept(rs, cfg, c, k)
    ensures FallsBack(rs[k - 1], c) ==>
              AnswerAt(rs, cfg, k - 1) ==
              NaiveCheck(History(rs, cfg, c, k - 1), rs[k - 1].fallbackNow, cfg.window, cfg.max).1
  {
    hide Agree, WindowsBounded, EvalExpiring, Check, NaiveCheck, RedisKey, Next;
    var r, ts, h := rs[k - 1], Get(StateAt(rs, cfg, k - 1).memory, c), History(rs, cfg, c, k - 1);
    LastReadBelow(rs, k - 1);
    NextInMemory(StateAt(rs, cfg, k - 1), r, cfg, c);
    if TouchesMemory(r) {
      AgreeLater(ts, h, LastRead(rs, k - 1), MemoryTime(r), cfg.window);
      AgreePruned(ts, h, MemoryTime(r), cfg.window);
      CheckAgrees(ts, h, MemoryTime(r), cfg.window, cfg.max);
      NaiveCheckBounded(h, MemoryTime(r), cfg.window, cfg.max);
    }
  }

  lemma NoHistory(rs: seq<Step>, cfg: Config, c: string)
    requires cfg.max >= 0
    ensures HistoryKept(rs, cfg, c, 0)
  {
    hide Agree, Next;
    AgreeEmpty(1, cfg.window);
  }

  lemma {:induction false} HistoryAgrees(rs: seq<Step>, cfg: Config, c: string, k: nat)
    requires FallbackClock(rs) && k <= |rs| && cfg.max >= 0
    ensures HistoryKept(rs, cfg, c, k)
  {
    hide *;
    if k == 0 {
      NoHistory(rs, cfg, c);
    } else {
      HistoryAgrees(rs, cfg, c, k - 1);
      HistoryStep(rs, cfg, c, k);
    }
  }

  lemma HistoryCountStep(rs: seq<Step>, cfg: Config, c: string, lo: int, hi: int, k: nat)
    requires 0 < k <= |rs|
    requires FallsBack(rs[k - 1], c) ==>
               AnswerAt(rs, cfg, k - 1) ==
               NaiveCheck(History(rs, cfg, c, k - 1), rs[k - 1].fallbackNow, cfg.window, cfg.max).1
    ensures CountIn(History(rs, cfg, c, k), lo, hi) ==
            CountIn(History(rs, cfg, c, k - 1), lo, hi) + (if AllowedInMemory(rs, cfg, c, lo, hi, k - 1) then 1 else 0)
  {
    hide AnswerAt;
    if FallsBack(rs[k - 1], c) {
      CountInAppend(History(rs, cfg, c, k - 1), rs[k - 1].fallbackNow, lo, hi);
    }
  }

  lemma MemoryAllowedStep(rs: seq<Step>, cfg: Config, c: string, lo: int, hi: int, k: nat)
    requires 0 < k <= |rs|
    ensures |MemoryAllowed(rs, cfg, c, lo, hi, k)| ==
            |MemoryAllowed(rs, cfg, c, lo, hi, k - 1)| + (if AllowedInMemory(rs, cfg, c, lo, hi, k - 1) then 1 else 0)
  {
    hide AllowedInMemory;
    var before, after := MemoryAllowed(rs, cfg, c, lo, hi, k - 1), MemoryAllowed(rs, cfg, c, lo, hi, k);
    assert k - 1 !in before;
    assert after == if k - 1 in after then before + {k - 1} else before;
  }

  lemma NothingYet(rs: seq<Step>, cfg: Config, c: string, lo: int, hi: int)
    ensures |MemoryAllowed(rs, cfg, c, lo, hi, 0)| == 0 == CountIn(History(rs, cfg, c, 0), lo, hi)
  {
    assert MemoryAllowed(rs, cfg, c, lo, hi, 0) == {};
  }

  /** The history counts exactly the requests that memory admitted. */
  lemma {:induction false} HistoryCounts(rs: seq<Step>, cfg: Config, c: string, lo: int, hi: int, k: nat)
    requires FallbackClock(rs) && k <= |rs| && cfg.max >= 0
    ensures |MemoryAllowed(rs, cfg, c, lo, hi, k)| == CountIn(History(rs, cfg, c, k), lo, hi)
  {
    hide *;
    if k == 0 {
      NothingYet(rs, cfg, c, lo, hi);
    } else {
      HistoryCounts(rs, cfg, c, lo, hi, k - 1);
      HistoryAgrees(rs, cfg, c, k - 1);
      HistoryStep(rs, cfg, c, k);
      MemoryAllowedStep(rs, cfg, c, lo, hi, k);
      HistoryCountStep(rs, cfg, c, lo, hi, k);
    }
  }

  /** All endpoints of a client share one memory allowance, the service default; cleanups change nothing. */
  lemma MemoryWindowBound(rs: seq<Step>, cfg: Config, c: string, lo: int, hi: int)
    requires FallbackClock(rs) && cfg.max >= 0 && hi <= lo + Millis(cfg.window)
    ensures |MemoryAllowed(rs, cfg, c, lo, hi, |rs|)| <= cfg.max
  {
    HistoryCounts(rs, cfg, c, lo, hi, |rs|);
    HistoryAgrees(rs, cfg, c, |rs|);
    hide Agree, History, StateAt;
  }

  // ---- Failover ----

  /** The `checkRateLimit` calls of a client that were admitted, by Redis or by memory, in [lo, hi). */
  ghost function ClientAllowed(rs: seq<Step>, cfg: Config, c: string, lo: int, hi: int): set<nat> {
    set i: nat | i < |rs| && rs[i].Request? && rs[i].clientId == c && rs[i].endpoint == None
                 && AnswerAt(rs, cfg, i).allowed
                 && lo <= (if rs[i].link == Answered then rs[i].now else rs[i].fallbackNow) < hi
  }

  lemma ClientAllowedSplit(rs: seq<Step>, cfg: Config, c: string, lo: int, hi: int)
    ensures ClientAllowed(rs, cfg, c, lo, hi) <=
            RedisAllowed(rs, cfg, RedisKey(c, None), lo, hi) + MemoryAllowed(rs, cfg, c, lo, hi, |rs|)
  {
    hide AnswerAt, RedisKey;
  }

  /**
   Whatever fails and when, with keys that expire and memory that is cleaned at any times, a window
   of W - d admits a client at most its own limit, recorded by Redis, plus the service default,
   recorded by memory. When its calls reach Redis in the order of their times, that is any window.
   */
  lemma FailoverBound(rs: seq<Step>, cfg: Config, c: string, ahead: int, behind: int, d: nat, lo: int, limit: nat)
    requires FallbackClock(rs) && cfg.max >= 0
    requires WellTimed(rs, cfg, RedisKey(c, None), ahead, behind, d)
    requires LimitsAtMost(OnKey(rs, cfg, RedisKey(c, None)), limit)
    ensures |ClientAllowed(rs, cfg, c, lo, lo + Millis(cfg.window) - d)| <= limit + cfg.max
  {
    hide *;
    var hi := lo + Millis(cfg.window) - d;
    RedisWindowBound(rs, cfg, RedisKey(c, None), ahead, behind, d, lo, limit);
    MemoryWindowBound(rs, cfg, c, lo, hi);
    ClientAllowedSplit(rs, cfg, c, lo, hi);
    SubsetSize(ClientAllowed(rs, cfg, c, lo, hi),
               RedisAllowed(rs, cfg, RedisKey(c, None), lo, hi) + MemoryAllowed(rs, cfg, c, lo, hi, |rs|));
  }

  /** A client that uses up its limit at Redis, and then the default while Redis is away. */
  function BothFull(limit: nat, max: nat): (rs: seq<Step>)
    ensures |rs| == limit + max
  {
    seq(limit + max, i requires 0 <= i < limit + max =>
      Request("client", None, Some(limit), 1, i, if i < limit then Answered else LostBefore, 1, 1))
  }

  function Ones(n: nat): (ones: seq<int>)
    ensures |ones| == n && forall i | 0 <= i < n :: ones[i] == 1
  {
    seq(n, _ => 1)
  }

  /** Redis and memory after `k` of these requests. */
  ghost predicate FilledTo(s: Service, limit: nat, k: nat) {
    var key := KeyIn(s.redis, RedisKey("client", None));
    && key.members == Burst(1, 0, if k < limit then k else limit) && (k > 0 ==> key.expiresAt >= 1)
    && Get(s.memory, "client") == Ones(if k < limit then 0 else k - limit)
  }

  lemma FillsRedis(key: Key, window: int, limit: nat, k: nat)
    requires window > 0 && k < limit && key.members == Burst(1, 0, k) && (k > 0 ==> key.expiresAt >= 1)
    ensures var (after, reply) := EvalExpiring(key, Call(1, limit, k, true), window, 1);
            reply.allowed && after.members == Burst(1, 0, k + 1) && after.expiresAt >= 1
  {
    BurstSize(1, 0, k);
    BurstNext(1, 0, k);
    assert Burst(1, 0, 0) == {};
    assert Present(key, 1) == Burst(1, 0, k);
    hide Burst;
    PruneNothing(Burst(1, 0, k), 1 - Millis(window));
    hide Prune, Present;
  }

  lemma FillsMemory(window: int, max: nat, k: nat)
    requires window > 0 && k < max
    ensures var (after, decision) := Check(Ones(k), 1, window, max); decision.allowed && after == Ones(k + 1)
  {
    AfterAll(Ones(k), 1 - Millis(window));
    assert Ones(k) + [1] == Ones(k + 1);
    hide After;
  }

  lemma {:induction false} FilledUp(cfg: Config, limit: nat, max: nat, k: nat)
    requires cfg.window > 0 && limit >= 1 && cfg.max == max && k <= limit + max
    ensures FilledTo(StateAt(BothFull(limit, max), cfg, k), limit, k)
    ensures k < limit + max ==> AnswerAt(BothFull(limit, max), cfg, k).allowed
  {
    hide EvalExpiring, Check, RedisKey, StateAt, Next, Ones, Burst, AnswerAt;
    var rs := BothFull(limit, max);
    if k == 0 {
      NothingFilled(rs, cfg, limit);
    } else {
      FilledUp(cfg, limit, max, k - 1);
      FillStep(cfg, limit, max, k - 1);
    }
    if k < limit + max {
      FillStep(cfg, limit, max, k);
    }
  }

  lemma NothingFilled(rs: seq<Step>, cfg: Config, limit: nat)
    requires limit >= 1
    ensures FilledTo(StateAt(rs, cfg, 0), limit, 0)
  {
    assert Burst(1, 0, 0) == {};
  }

  lemma FillStep(cfg: Config, limit: nat, max: nat, k: nat)
    requires cfg.window > 0 && limit >= 1 && cfg.max == max && k < limit + max
    requires FilledTo(StateAt(BothFull(limit, max), cfg, k), limit, k)
    ensures FilledTo(StateAt(BothFull(limit, max), cfg, k + 1), limit, k + 1)
    ensures AnswerAt(BothFull(limit, max), cfg, k).allowed
  {
    hide EvalExpiring, Check, RedisKey, StateAt, Next, Ones, Burst, KeyIn, Get;
    var rs := BothFull(limit, max);
    var s := StateAt(rs, cfg, k);
    StateAfterStep(rs, cfg, k);
    NextOnKey(s, rs[k], cfg, RedisKey("client", None));
    NextInMemory(s, rs[k], cfg, "client");
    if k < limit {
      FillsRedis(KeyIn(s.redis, RedisKey("client", None)), cfg.window, limit, k);
    } else {
      FillsMemory(cfg.window, max, k - limit);
    }
  }

  lemma BothFullTimed(cfg: Config, limit: nat, max: nat, d: nat)
    requires limit >= 1
    ensures var rs := BothFull(limit, max);
            && FallbackClock(rs) && WellTimed(rs, cfg, RedisKey("client", None), 0, 0, d)
            && LimitsAtMost(OnKey(rs, cfg, RedisKey("client", None)), limit)
  {
    hide RedisKey;
  }

  /** The bound is reached: for every limit and default some run admits exactly their sum in a window. */
  lemma FailoverBoundIsReached(cfg: Config, limit: nat, d: nat)
    requires cfg.window > 0 && cfg.max >= 0 && limit >= 1 && d < Millis(cfg.window)
    ensures var rs := BothFull(limit, cfg.max);
            && FallbackClock(rs) && WellTimed(rs, cfg, RedisKey("client", None), 0, 0, d)
            && LimitsAtMost(OnKey(rs, cfg, RedisKey("client", None)), limit)
            && |ClientAllowed(rs, cfg, "client", 1, 1 + Millis(cfg.window) - d)| == limit + cfg.max
  {
    var rs, max: nat := BothFull(limit, cfg.max), cfg.max;
    BothFullTimed(cfg, limit, max, d);
    hide AnswerAt, Indices, FallbackClock, WellTimed, LimitsAtMost, FilledTo;
    forall i | 0 <= i < limit + max ensures AnswerAt(rs, cfg, i).allowed {
      FilledUp(cfg, limit, max, i);
    }
    assert ClientAllowed(rs, cfg, "client", 1, 1 + Millis(cfg.window) - d) == Indices(limit + max);
  }

  // ---- Waiting out a denial by memory ----

  /** Every check of client `c` in memory between steps `i` and `j` came before `r`. */
  ghost predicate QuietUntil(rs: seq<Step>, c: string, i: nat, j: nat, r: int)
    requires j <= |rs|
  {
    forall m | i < m < j && FallsBack(rs[m], c) :: rs[m].fallbackNow < r
  }

  /** What memory answers, in terms of its history. */
  lemma AnswerFromHistory(rs: seq<Step>, cfg: Config, c: string, k: nat)
    requires FallbackClock(rs) && k < |rs| && cfg.max >= 0 && FallsBack(rs[k], c)
    ensures var h, now := History(rs, cfg, c, k), rs[k].fallbackNow;
            && AnswerAt(rs, cfg, k) == NaiveCheck(h, now, cfg.window, cfg.max).1
            && History(rs, cfg, c, k + 1) == NaiveCheck(h, now, cfg.window, cfg.max).0
            && WindowsBounded(h, cfg.window, cfg.max) && AtMost(h, now)
  {
    HistoryAgrees(rs, cfg, c, k);
    HistoryStep(rs, cfg, c, k + 1);
    LastReadBelow(rs, k);
    hide AnswerAt, NaiveCheck, WindowsBounded, SameAfter, LastRead;
  }

  /** Between a denial and its reset time no admission of the client is recorded in memory. */
  lemma {:induction false} HistoryFrozen(rs: seq<Step>, cfg: Config, c: string, i: nat, j: nat)
    requires FallbackClock(rs) && cfg.max >= 1 && i < j <= |rs| && FallsBack(rs[i], c)
    requires !AnswerAt(rs, cfg, i).allowed && QuietUntil(rs, c, i, j, AnswerAt(rs, cfg, i).resetAt)
    ensures History(rs, cfg, c, j) == History(rs, cfg, c, i)
  {
    hide AnswerAt, NaiveCheck, WindowsBounded;
    AnswerFromHistory(rs, cfg, c, i);
    var h := History(rs, cfg, c, i);
    if j == i + 1 {
      DenialKeepsHistory(h, rs[i].fallbackNow, cfg.window, cfg.max);
    } else {
      HistoryFrozen(rs, cfg, c, i, j - 1);
      if FallsBack(rs[j - 1], c) {
        AnswerFromHistory(rs, cfg, c, j - 1);
        assert MemoryTime(rs[i]) <= MemoryTime(rs[j - 1]);
        NaiveDenialIsExact(h, rs[i].fallbackNow, rs[j - 1].fallbackNow, cfg.window, cfg.max);
        DenialKeepsHistory(h, rs[j - 1].fallbackNow, cfg.window, cfg.max);
      }
    }
  }

  /**
   A denial by memory is as honest as one by the script, in every run of the service: whatever
   other requests Redis answers, on whichever endpoints the client is checked and whenever memory
   is cleaned, a later check of the client is denied, with the same reset time, exactly until then.
   */
  lemma MemoryDenialIsExact(rs: seq<Step>, cfg: Config, c: string, i: nat, j: nat)
    requires FallbackClock(rs) && cfg.max >= 1 && i < j < |rs| && FallsBack(rs[i], c) && FallsBack(rs[j], c)
    requires !AnswerAt(rs, cfg, i).allowed && QuietUntil(rs, c, i, j, AnswerAt(rs, cfg, i).resetAt)
    ensures var r, later := AnswerAt(rs, cfg, i).resetAt, AnswerAt(rs, cfg, j);
            && rs[i].fallbackNow < r && (later.allowed <==> r <= rs[j].fallbackNow)
            && (!later.allowed ==> later.resetAt == r)
  {
    hide AnswerAt, NaiveCheck, WindowsBounded, History;
    AnswerFromHistory(rs, cfg, c, i);
    AnswerFromHistory(rs, cfg, c, j);
    HistoryFrozen(rs, cfg, c, i, j);
    assert MemoryTime(rs[i]) <= MemoryTime(rs[j]);
    NaiveDenialIsExact(History(rs, cfg, c, i), rs[i].fallbackNow, rs[j].fallbackNow, cfg.window, cfg.max);
  }

  // ---- Redis and the fallback agree ----

  /** The same steps with Redis down throughout. */
  function Offline(rs: seq<Step>): (off: seq<Step>)
    ensures |off| == |rs| && forall i | 0 <= i < |rs| :: off[i].Request? == rs[i].Request?
  {
    seq(|rs|, i requires 0 <= i < |rs| => if rs[i].Request? then rs[i].(link := LostBefore) else rs[i])
  }

  /** A request both limiters can be asked alike: no endpoint, the default limit, one positive time. */
  predicate Plain(r: Step, cfg: Config) {
    r.Request? ==>
      && r.endpoint == None && r.link == Answered && EffectiveLimit(r.maxRequests, cfg.max) == cfg.max
      && r.now == r.fallbackNow > 0
  }

  function TimeOf(r: Step): int {
    if r.Request? then r.now else r.sweptAt
  }

  ghost predicate PlainRun(rs: seq<Step>, cfg: Config) {
    && (forall i | 0 <= i < |rs| :: Plain(rs[i], cfg))
    && (forall i, j | 0 <= i < j < |rs| :: TimeOf(rs[i]) <= TimeOf(rs[j]))
    && (forall i, j | 0 <= i < j < |rs| && rs[i].Request? && rs[j].Request? ::
          (rs[i].now, rs[i].nonce) != (rs[j].now, rs[j].nonce))
  }

  ghost predicate Orderly(ts: seq<int>, latest: int) {
    Sorted(ts) && Positive(ts) && AtMost(ts, latest)
  }

  /** The set lists the admissions of `ts`, and the memory looks like `ts` from now on. */
  ghost predicate Backs(ts: seq<int>, z: set<Entry>, memory: seq<int>, latest: int, window: int) {
    Matches(z, ts) && Orderly(ts, latest) && SameAfter(memory, ts, latest - Millis(window))
  }

  /** The set and the memory hold the same admissions as far as any later call can see. */
  ghost predicate SameBook(z: set<Entry>, memory: seq<int>, latest: int, window: int) {
    exists ts :: Backs(ts, z, memory, latest, window)
  }

  lemma CheckKeepsOrder(ts: seq<int>, now: int, window: int, max: int)
    requires Orderly(ts, now) && now > 0
    ensures Orderly(Check(ts, now, window, max).0, now)
  {
    var live := After(ts, now - Millis(window));
    AfterKeepsSorted(ts, now - Millis(window));
    AfterMembers(ts, now - Millis(window));
    forall i | 0 <= i < |live| ensures 0 < live[i] <= now {
      assert live[i] in live;
    }
    SortedAppend(live, now);
  }

  lemma ClientKeyInjective(c1: string, c2: string)
    ensures RedisKey(c1, None) == RedisKey(c2, None) <==> c1 == c2
  {
    assert RedisKey(c1, None)[|"rate_limit:"|..] == c1 && RedisKey(c2, None)[|"rate_limit:"|..] == c2;
  }

  lemma OrderlyLater(ts: seq<int>, latest: int, later: int)
    requires Orderly(ts, latest) && latest <= later
    ensures Orderly(ts, later)
  {
  }

  lemma BookLater(z: set<Entry>, memory: seq<int>, latest: int, later: int, window: int)
    requires SameBook(z, memory, latest, window) && latest <= later
    ensures SameBook(z, memory, later, window)
  {
    hide Matches, Orderly, SameAfter;
    var ts :| Backs(ts, z, memory, latest, window);
    OrderlyLater(ts, latest, later);
    SameAfterLater(memory, ts, latest - Millis(window), later - Millis(window));
    assert Backs(ts, z, memory, later, window);
  }

  lemma BookSwept(z: set<Entry>, memory: seq<int>, now: int, window: int)
    requires SameBook(z, memory, now, window)
    ensures SameBook(z, After(memory, now - Millis(window)), now, window)
  {
    hide Matches, Orderly, SameAfter, After;
    var ts :| Backs(ts, z, memory, now, window);
    SameAfterPruned(memory, ts, now - Millis(window));
    assert Backs(ts, z, After(memory, now - Millis(window)), now, window);
  }

  /** A check sees no more of a list than what survives its pruning. */
  lemma CheckSeesAfter(memory: seq<int>, ts: seq<int>, now: int, window: int, max: int)
    requires SameAfter(memory, ts, now - Millis(window))
    ensures Check(memory, now, window, max) == Check(ts, now, window, max)
  {
  }

  lemma BookChecked(z: set<Entry>, memory: seq<int>, now: int, nonce: nat, cfg: Config)
    requires SameBook(z, memory, now, cfg.window) && now > 0 && Entry(now, nonce) !in z && cfg.max >= 1
    ensures DecisionOf(Eval(z, now, cfg.window, cfg.max, nonce).1, cfg.max) == Check(memory, now, cfg.window, cfg.max).1
    ensures SameBook(Eval(z, now, cfg.window, cfg.max, nonce).0, Check(memory, now, cfg.window, cfg.max).0,
                     now, cfg.window)
  {
    hide Matches, Sorted, Positive, AtMost, SameAfter, Eval, Check;
    var ts :| Backs(ts, z, memory, now, cfg.window);
    CheckSeesAfter(memory, ts, now, cfg.window, cfg.max);
    CheckKeepsOrder(ts, now, cfg.window, cfg.max);
    CallMatches(z, ts, now, cfg.window, cfg.max, nonce);
    var z', ts' := Eval(z, now, cfg.window, cfg.max, nonce).0, Check(ts, now, cfg.window, cfg.max).0;
    SameAfterItself(ts', now - Millis(cfg.window));
    assert Backs(ts', z', ts', now, cfg.window);
  }

  lemma SameAfterItself(ts: seq<int>, t: int)
    ensures SameAfter(ts, ts, t)
  {
  }

  lemma EmptyBook(latest: int, window: int)
    ensures SameBook({}, [], latest, window)
  {
    assert Lists({}, [], []);
    assert Backs([], {}, [], latest, window);
  }

  ghost function LatestBefore(rs: seq<Step>, k: nat): int
    requires k <= |rs|
  {
    if k == 0 then (if rs == [] then 0 else TimeOf(rs[0])) else TimeOf(rs[k - 1])
  }

  lemma PlainAt(rs: seq<Step>, cfg: Config, k: nat)
    requires PlainRun(rs, cfg) && k < |rs|
    ensures Plain(rs[k], cfg) && LatestBefore(rs, k) <= LatestBefore(rs, k + 1) == TimeOf(rs[k])
  {
    if k > 0 {
      assert TimeOf(rs[k - 1]) <= TimeOf(rs[k]);
    }
  }

  /** Of a plain run, a request runs its script on the key of its client alone. */
  lemma PlainCall(rs: seq<Step>, cfg: Config, c: string, k: nat)
    requires PlainRun(rs, cfg) && k < |rs|
    ensures var call := OnKey(rs, cfg, RedisKey(c, None))[k];
            && (call.ran <==> rs[k].Request? && rs[k].clientId == c)
            && (call.ran ==> call == Call(rs[k].now, cfg.max, rs[k].nonce, true) && call.now > 0)
  {
    assert Plain(rs[k], cfg);
    if rs[k].Request? {
      ClientKeyInjective(rs[k].clientId, c);
    }
    hide RedisKey;
  }

  lemma PlainMembers(rs: seq<Step>, cfg: Config, c: string)
    requires PlainRun(rs, cfg)
    ensures DistinctMembers(OnKey(rs, cfg, RedisKey(c, None)))
  {
    var calls := OnKey(rs, cfg, RedisKey(c, None));
    hide OnKey, RedisKey;
    forall i, j | 0 <= i < j < |calls| && calls[i].ran && calls[j].ran ensures EntryOf(calls[i]) != EntryOf(calls[j]) {
      PlainCall(rs, cfg, c, i);
      PlainCall(rs, cfg, c, j);
      assert (rs[i].now, rs[i].nonce) != (rs[j].now, rs[j].nonce);
    }
  }

  /** The idealised sorted set of a client, and its list in the offline run. */
  ghost predicate SameBookAt(rs: seq<Step>, cfg: Config, c: string, k: nat)
    requires k <= |rs|
  {
    SameBook(State(OnKey(rs, cfg, RedisKey(c, None)), cfg.window, k), Get(StateAt(Offline(rs), cfg, k).memory, c),
             LatestBefore(rs, k), cfg.window)
  }

  lemma NoBook(rs: seq<Step>, cfg: Config, c: string)
    ensures SameBookAt(rs, cfg, c, 0)
  {
    EmptyBook(LatestBefore(rs, 0), cfg.window);
  }

  /** What the offline run does to the list of a client. */
  lemma OfflineStep(rs: seq<Step>, cfg: Config, c: string, k: nat)
    requires PlainRun(rs, cfg) && k < |rs|
    ensures var ts := Get(StateAt(Offline(rs), cfg, k).memory, c);
            Get(StateAt(Offline(rs), cfg, k + 1).memory, c) ==
            if rs[k].Sweep? then After(ts, rs[k].sweptAt - Millis(cfg.window))
            else if rs[k].clientId == c then Check(ts, rs[k].now, cfg.window, cfg.max).0
            else ts
  {
    hide Next, StateAt, Get, After, Check, Offline, PlainRun;
    PlainAt(rs, cfg, k);
    OfflineAt(rs, k);
    StateAfterStep(Offline(rs), cfg, k);
    NextInMemory(StateAt(Offline(rs), cfg, k), Offline(rs)[k], cfg, c);
  }

  lemma OfflineAt(rs: seq<Step>, k: nat)
    requires k < |rs|
    ensures Offline(rs)[k] == if rs[k].Request? then rs[k].(link := LostBefore) else rs[k]
  {
  }

  /** What a call leaves, or a step that is none. */
  lemma StateAfter(calls: seq<Call>, window: int, k: nat)
    requires k < |calls|
    ensures var z, c := State(calls, window, k), calls[k];
            State(calls, window, k + 1) == if c.ran then Eval(z, c.now, window, c.limit, c.nonce).0 else z
  {
    hide Eval;
  }

  lemma BookStep(rs: seq<Step>, cfg: Config, c: string, k: nat)
    requires PlainRun(rs, cfg) && cfg.max >= 1 && k < |rs| && SameBookAt(rs, cfg, c, k)
    ensures SameBookAt(rs, cfg, c, k + 1)
    ensures rs[k].Request? && rs[k].clientId == c ==>
              DecisionOf(ReplyAt(OnKey(rs, cfg, RedisKey(c, None)), cfg.window, k), cfg.max) ==
              Check(Get(StateAt(Offline(rs), cfg, k).memory, c), rs[k].now, cfg.window, cfg.max).1
  {
    hide SameBook, PlainRun, Plain, OnKey, RedisKey, State, StateAt, After, Check, Eval, Get, DistinctMembers;
    var calls, memory := OnKey(rs, cfg, RedisKey(c, None)), Get(StateAt(Offline(rs), cfg, k).memory, c);
    PlainAt(rs, cfg, k);
    PlainCall(rs, cfg, c, k);
    OfflineStep(rs, cfg, c, k);
    StateAfter(calls, cfg.window, k);
    BookLater(State(calls, cfg.window, k), memory, LatestBefore(rs, k), TimeOf(rs[k]), cfg.window);
    if rs[k].Sweep? {
      BookSwept(State(calls, cfg.window, k), memory, TimeOf(rs[k]), cfg.window);
    } else if rs[k].clientId == c {
      PlainMembers(rs, cfg, c);
      FreshMember(calls, cfg.window, k, k);
      BookChecked(State(calls, cfg.window, k), memory, rs[k].now, rs[k].nonce, cfg);
    }
  }

  lemma {:induction false} BooksStaySame(rs: seq<Step>, cfg: Config, c: string, k: nat)
    requires PlainRun(rs, cfg) && cfg.max >= 1 && k <= |rs|
    ensures SameBookAt(rs, cfg, c, k)
  {
    hide *;
    if k == 0 {
      NoBook(rs, cfg, c);
    } else {
      BooksStaySame(rs, cfg, c, k - 1);
      BookStep(rs, cfg, c, k - 1);
    }
  }

  /** Offline, memory answers what the script would on a set that never expires. */
  lemma OfflineAnswer(rs: seq<Step>, cfg: Config, k: nat)
    requires PlainRun(rs, cfg) && cfg.max >= 1 && k < |rs| && rs[k].Request?
    ensures AnswerAt(Offline(rs), cfg, k) ==
            DecisionOf(ReplyAt(OnKey(rs, cfg, RedisKey(rs[k].clientId, None)), cfg.window, k), cfg.max)
  {
    hide PlainRun, RedisKey, StateAt, ReplyAt, Check, EvalExpiring, SameBookAt, OnKey;
    PlainAt(rs, cfg, k);
    BooksStaySame(rs, cfg, rs[k].clientId, k);
    BookStep(rs, cfg, rs[k].clientId, k);
  }

  /**
   On every request of every run Redis and the in-memory fallback give one answer: the same
   decision, count, remainder and reset time. Clocks within the extra minute keep expiry unseen.
   */
  lemma FallbackAnswersAlike(rs: seq<Step>, cfg: Config, ahead: int, behind: int, k: nat)
    requires PlainRun(rs, cfg) && cfg.max >= 1 && k < |rs| && rs[k].Request?
    requires ahead + behind <= 60001
    requires ClocksWithin(OnKey(rs, cfg, RedisKey(rs[k].clientId, None)), Ats(rs), ahead, behind)
    ensures AnswerAt(rs, cfg, k) == AnswerAt(Offline(rs), cfg, k)
  {
    hide PlainRun, AnswerAt, ExpiringReplyAt, ReplyAt, OnKey, Ats, ClocksWithin;
    var calls := OnKey(rs, cfg, RedisKey(rs[k].clientId, None));
    PlainAt(rs, cfg, k);
    OfflineAnswer(rs, cfg, k);
    AnswerIsReply(rs, cfg, k);
    SameReplies(calls, Ats(rs), cfg.window, ahead, behind);
    assert ExpiringReplyAt(calls, Ats(rs), cfg.window, k) == ReplyAt(calls, cfg.window, k);
  }

  // ---- Limits, keys and links ----

  /** A missing or zero limit means the default, and any other limit itself. */
  lemma LimitOrDefault(limit: int, max: int)
    ensures EffectiveLimit(None, max) == max && EffectiveLimit(Some(0), max) == max
    ensures limit != 0 ==> EffectiveLimit(Some(limit), max) == limit
  {
  }

  /** The keys of a client are its own, one for each endpoint and one for none. */
  lemma KeySpelling(c: string, e: string, f: string)
    ensures RedisKey(c, None) == "rate_limit:" + c && RedisKey(c, Some(e)) == "rate_limit:" + c + ":" + e
    ensures RedisKey(c, Some(e)) != RedisKey(c, None)
    ensures RedisKey(c, Some(e)) == RedisKey(c, Some(f)) <==> e == f
  {
    assert |RedisKey(c, None)| < |RedisKey(c, Some(e))|;
    var prefix := "rate_limit:" + c + ":";
    assert RedisKey(c, Some(e)) == prefix + e && RedisKey(c, Some(f)) == prefix + f;
    assert (prefix + e)[|prefix|..] == e && (prefix + f)[|prefix|..] == f;
  }

  /** Two clients can share a key exactly when one is named like the other and an endpoint of it. */
  lemma ClientsShareKeyIff(c1: string, c2: string)
    ensures (exists e1, e2 :: RedisKey(c1, e1) == RedisKey(c2, e2)) <==>
            c1 == c2 || c1 + ":" <= c2 || c2 + ":" <= c1
  {
    forall e1, e2 | RedisKey(c1, e1) == RedisKey(c2, e2) ensures c1 == c2 || c1 + ":" <= c2 || c2 + ":" <= c1 {
      SharedKey(c1, e1, c2, e2);
    }
    if c1 == c2 {
      assert RedisKey(c1, None) == RedisKey(c2, None);
    } else if c1 + ":" <= c2 {
      assert c2 == c1 + ":" + c2[|c1| + 1..];
      assert RedisKey(c1, Some(c2[|c1| + 1..])) == RedisKey(c2, None);
    } else if c2 + ":" <= c1 {
      assert c1 == c2 + ":" + c1[|c2| + 1..];
      assert RedisKey(c1, None) == RedisKey(c2, Some(c1[|c2| + 1..]));
    }
  }

  function Suffix(e: Option<string>): string {
    if e.Some? then ":" + e.value else ""
  }

  lemma SameTail(prefix: string, a: string, b: string)
    requires prefix + a == prefix + b
    ensures a == b
  {
    assert (prefix + a)[|prefix|..] == a && (prefix + b)[|prefix|..] == b;
  }

  lemma KeyText(c: string, e: Option<string>)
    ensures RedisKey(c, e) == "rate_limit:" + (c + Suffix(e)) && (Suffix(e) == "" || Suffix(e)[0] == ':')
  {
  }

  lemma SharedKey(c1: string, e1: Option<string>, c2: string, e2: Option<string>)
    requires RedisKey(c1, e1) == RedisKey(c2, e2)
    ensures c1 == c2 || c1 + ":" <= c2 || c2 + ":" <= c1
  {
    hide RedisKey, Suffix;
    KeyText(c1, e1);
    KeyText(c2, e2);
    SameTail("rate_limit:", c1 + Suffix(e1), c2 + Suffix(e2));
    if |c1| < |c2| {
      PrefixSplit(c1, Suffix(e1), c2, Suffix(e2));
    } else if |c2| < |c1| {
      PrefixSplit(c2, Suffix(e2), c1, Suffix(e1));
    } else {
      SameHead(c1, Suffix(e1), c2, Suffix(e2));
    }
  }

  lemma SameHead(c1: string, s1: string, c2: string, s2: string)
    requires c1 + s1 == c2 + s2 && |c1| == |c2|
    ensures c1 == c2
  {
    assert c1 == (c1 + s1)[..|c1|] && c2 == (c2 + s2)[..|c2|];
  }

  lemma PrefixSplit(c1: string, s1: string, c2: string, s2: string)
    requires c1 + s1 == c2 + s2 && |c1| < |c2| && (s1 == "" || s1[0] == ':')
    ensures c1 + ":" <= c2
  {
    assert |c1 + s1| == |c2 + s2|;
    assert forall i | 0 <= i < |c1| :: c1[i] == (c1 + s1)[i] == c2[i];
    assert (c1 + s1)[|c1|] == s1[0] == ':' == c2[|c1|];
  }

  /**
   A script that took effect counts the same whether or not its reply was lost, and one that did
   not leaves Redis alone. Memory is asked exactly when there is no reply, and then decides by the default.
   */
  lemma LostReplyCounts(s: Service, r: Step, cfg: Config)
    requires r.Request?
    ensures var answered := Handle(s, r.(link := Answered), cfg);
            var lost, never := Handle(s, r.(link := LostAfter), cfg), Handle(s, r.(link := LostBefore), cfg);
            && lost.0.redis == answered.0.redis && never.0.redis == s.redis && answered.0.memory == s.memory
            && lost.1 == never.1 == Check(Get(s.memory, r.clientId), r.fallbackNow, cfg.window, cfg.max).1
            && lost.0.memory == never.0.memory ==
               s.memory[r.clientId := Check(Get(s.memory, r.clientId), r.fallbackNow, cfg.window, cfg.max).0]
  {
    hide EvalExpiring, Check, RedisKey;
  }

  /** After a cleanup memory holds, of each client, exactly the stamps of the window, and no client without one. */
  lemma SweepKeepsWindow(s: Service, sweptAt: int, cfg: Config, c: string)
    ensures var swept := Next(s, Sweep(sweptAt), cfg);
            && swept.redis == s.redis
            && (c in swept.memory <==> c in s.memory && exists x :: x in s.memory[c] && x > sweptAt - cfg.window * 1000)
            && (c in swept.memory ==>
                  forall x :: x in swept.memory[c] <==> x in s.memory[c] && x > sweptAt - cfg.window * 1000)
  {
    CleanupKeepsWindow(Run(s.memory, []), sweptAt, cfg.window, cfg.max, c);
  }
}
