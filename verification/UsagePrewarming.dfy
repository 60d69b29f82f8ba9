/** What a finished computation, and so a pre-warmer, does for the reads that follow it. */
module UsagePrewarming {
  import opened CacheKeys
  import opened UsageAnswers
  import opened UsageCache

  /** The event writes a report for `p` to the cache. */
  predicate Writes(s: Service, e: Event, p: Params)
    requires Enabled(s, e)
  {
    e.Finish? && e.cacheUp && s.tasks[e.i].p == p && Result(s.tasks[e.i]) != []
  }

  /** Step `k` stored the last report for `p` before step `m`. */
  ghost predicate LastWrite(ss: seq<Service>, es: seq<Event>, w: World, cfg: Config, k: nat, m: nat, p: Params)
    : (last: bool)
    requires IsRun(ss, es, w, cfg) && m <= |es|
    ensures last ==> k < m && es[k].Finish?
  {
    k < m && Writes(ss[k], es[k], p) && forall j | k < j < m :: !Writes(ss[j], es[j], p)
  }

  /** A step keeps the entry of `p` unless it writes that entry. */
  lemma NextKeepsEntry(s: Service, e: Event, w: World, cfg: Config, p: Params)
    requires Enabled(s, e) && PrintKey(p) in s.entries && !Writes(s, e, p)
    ensures PrintKey(p) in Next(s, e, w, cfg).entries
    ensures Next(s, e, w, cfg).entries[PrintKey(p)] == s.entries[PrintKey(p)]
  {
    hide PrintKey, Result, Done, CacheHit, Queried;
    if e.Finish? {
      KeysDistinct(s.tasks[e.i].p, p);
    }
  }

  lemma WriteStores(s: Service, e: Event, w: World, cfg: Config, p: Params)
    requires Enabled(s, e) && Writes(s, e, p)
    ensures PrintKey(p) in Next(s, e, w, cfg).entries
    ensures var entry := Next(s, e, w, cfg).entries[PrintKey(p)];
            entry.rows == Result(s.tasks[e.i]) && entry.expiresAt == e.now + Ttl(p, cfg)
  {
    hide PrintKey, Result, Done;
  }

  lemma {:induction false} EntryStays(ss: seq<Service>, es: seq<Event>, w: World, cfg: Config,
                                      k: nat, m: nat, p: Params)
    requires IsRun(ss, es, w, cfg) && m <= |es| && LastWrite(ss, es, w, cfg, k, m, p)
    ensures PrintKey(p) in ss[m].entries
    ensures var entry := ss[m].entries[PrintKey(p)];
            entry.rows == Result(ss[k].tasks[es[k].i]) && entry.expiresAt == es[k].now + Ttl(p, cfg)
  {
    hide Next, Writes, PrintKey, Ttl, Result;
    if m == k + 1 {
      WriteStores(ss[k], es[k], w, cfg, p);
    } else {
      EntryStays(ss, es, w, cfg, k, m - 1, p);
      NextKeepsEntry(ss[m - 1], es[m - 1], w, cfg, p);
    }
  }

  /** The time to live of a report, in milliseconds. */
  function Lifetime(p: Params, cfg: Config): int {
    match p
    case Daily(_) => cfg.ttlDaily * 1000
    case Top(_, _) => cfg.ttlTop * 1000
  }

  /**
   Once a pre-warmer or reader has stored a report, and until another is stored for the same
   parameters, a read with the cache up is answered with the stored rows, at once and without a
   query, if and only if it comes within the time to live.
   */
  lemma StoredReportServes(ss: seq<Service>, es: seq<Event>, w: World, cfg: Config, k: nat, m: nat)
    requires IsRun(ss, es, w, cfg) && m < |es| && es[m].Read? && es[m].cacheUp
    requires LastWrite(ss, es, w, cfg, k, m, es[m].p)
    ensures var rows := Result(ss[k].tasks[es[k].i]);
            if es[m].now <= es[k].now + Lifetime(es[m].p, cfg)
            then ss[m + 1].answers == ss[m].answers + [Hit(es[m].p, es[m].now, rows)] && ss[m + 1].tasks == ss[m].tasks
            else ss[m + 1].answers == ss[m].answers && ss[m + 1].tasks == ss[m].tasks + [Start(es[m].p, false)]
  {
    assert Ttl(es[m].p, cfg) == Lifetime(es[m].p, cfg);
    hide PrintKey, Ttl, Result, Done, Queried, Lifetime;
    EntryStays(ss, es, w, cfg, k, m, es[m].p);
    assert ss[m + 1] == Next(ss[m], es[m], w, cfg);
    assert Enabled(ss[k], es[k]);
  }

  /** After a pre-warming of `p` has finished, with the cache up and rows to store, reads of `p` are hits. */
  lemma PrewarmedReadHits(ss: seq<Service>, es: seq<Event>, w: World, cfg: Config, k: nat, m: nat, p: Params)
    requires IsRun(ss, es, w, cfg) && k < m < |es| && es[m].Read? && es[m].p == p && es[m].cacheUp
    requires EndsPrewarm(ss[k], es[k], p) && es[k].Finish? && es[k].cacheUp && Result(ss[k].tasks[es[k].i]) != []
    requires forall j | k < j < m :: !Writes(ss[j], es[j], p)
    requires es[m].now <= es[k].now + Lifetime(p, cfg)
    ensures ss[m + 1].answers == ss[m].answers + [Hit(p, es[m].now, Result(ss[k].tasks[es[k].i]))]
  {
    hide Lifetime, Result, Next;
    StoredReportServes(ss, es, w, cfg, k, m);
  }

  /** Nothing but a report stored earlier is ever a hit. */
  lemma {:induction false} EntryWasWritten(ss: seq<Service>, es: seq<Event>, w: World, cfg: Config, m: nat, p: Params)
    returns (k: nat)
    requires IsRun(ss, es, w, cfg) && m <= |es| && PrintKey(p) in ss[m].entries
    ensures LastWrite(ss, es, w, cfg, k, m, p)
  {
    hide PrintKey, Ttl, Result, Done, Queried, CacheHit, Writes;
    assert m > 0;
    assert Enabled(ss[m - 1], es[m - 1]);
    if Writes(ss[m - 1], es[m - 1], p) {
      k := m - 1;
    } else {
      NoNewEntry(ss[m - 1], es[m - 1], w, cfg, p);
      k := EntryWasWritten(ss, es, w, cfg, m - 1, p);
    }
  }

  lemma NoNewEntry(s: Service, e: Event, w: World, cfg: Config, p: Params)
    requires Enabled(s, e) && PrintKey(p) in Next(s, e, w, cfg).entries && !Writes(s, e, p)
    ensures PrintKey(p) in s.entries
  {
    hide PrintKey, Result, Done, CacheHit, Queried;
    if e.Finish? {
      KeysDistinct(s.tasks[e.i].p, p);
    }
  }

  /**
   A read is answered at once if and only if the cache is up and a report for its parameters was
   stored, the last of them no longer ago than the time to live. Any other read starts computing.
   */
  lemma HitIffStored(ss: seq<Service>, es: seq<Event>, w: World, cfg: Config, m: nat)
    requires IsRun(ss, es, w, cfg) && m < |es| && es[m].Read?
    ensures var p := es[m].p;
            ss[m + 1].answers != ss[m].answers <==>
            es[m].cacheUp &&
            exists k: nat :: LastWrite(ss, es, w, cfg, k, m, p) && es[m].now <= es[k].now + Lifetime(p, cfg)
    ensures ss[m + 1].answers == ss[m].answers ==> ss[m + 1].tasks == ss[m].tasks + [Start(es[m].p, false)]
  {
    hide PrintKey, Ttl, Result, Done, Queried, LastWrite, Lifetime;
    var p := es[m].p;
    assert ss[m + 1] == Next(ss[m], es[m], w, cfg);
    if es[m].cacheUp {
      if ss[m + 1].answers != ss[m].answers {
        var k := EntryWasWritten(ss, es, w, cfg, m, p);
        StoredReportServes(ss, es, w, cfg, k, m);
      }
      if k: nat :| LastWrite(ss, es, w, cfg, k, m, p) && es[m].now <= es[k].now + Lifetime(p, cfg) {
        StoredReportServes(ss, es, w, cfg, k, m);
      }
    }
  }

  // ---- One computation, from its start to its end ----

  /** The pre-warmer's computation after the first `n` of its queries. */
  function TaskAt(w: World, p: Params, times: seq<int>, n: nat): Task
    requires Complete(w, p, times) && n <= |times|
  {
    if n == 0 then Start(p, true)
    else match p
      case Daily(days) =>
        Task(p, true, times[..n], w.clients(times[0]), Collect(w, days, w.clients(times[0]), times, n - 1))
      case Top(hours, limit) => Task(p, true, times[..n], [], w.top(times[0], hours, limit))
  }

  lemma TaskStep(w: World, p: Params, times: seq<int>, n: nat)
    requires Complete(w, p, times) && n < |times|
    ensures !Done(TaskAt(w, p, times, n)) && Queried(w, TaskAt(w, p, times, n), times[n]) == TaskAt(w, p, times, n + 1)
  {
    assert times[..n] + [times[n]] == times[..n + 1];
    if n == 0 {
      assert times[..1] == [times[0]];
    } else if p.Daily? {
      CollectStep(w, p.days, w.clients(times[0]), times, n);
    }
  }

  lemma TaskEnds(w: World, p: Params, times: seq<int>)
    requires Complete(w, p, times)
    ensures Done(TaskAt(w, p, times, |times|)) && Result(TaskAt(w, p, times, |times|)) == Report(w, p, times)
  {
    assert times[..|times|] == times;
  }

  /** A pre-warming of `p` whose queries are answered at `times`, and whose result is stored at `now`. */
  function Events(i: nat, p: Params, times: seq<int>, now: int): (es: seq<Event>)
    ensures |es| == |times| + 2 && es[0] == Prewarm(p) && es[|times| + 1] == Finish(i, now, true)
    ensures forall n | 0 <= n < |times| :: es[n + 1] == Query(i, times[n])
  {
    [Prewarm(p)] + seq(|times|, n requires 0 <= n < |times| => Query(i, times[n])) + [Finish(i, now, true)]
  }

  ghost predicate Leads(s: Service, e: Event, after: Service, w: World, cfg: Config) {
    Enabled(s, e) && after == Next(s, e, w, cfg)
  }

  ghost predicate Follows(ss: seq<Service>, es: seq<Event>, w: World, cfg: Config) {
    && |ss| == |es| + 1
    && forall k | 0 <= k < |es| :: Leads(ss[k], es[k], ss[k + 1], w, cfg)
  }

  lemma StepsFollow(ss: seq<Service>, es: seq<Event>, w: World, cfg: Config)
    requires |ss| == |es| + 1 && forall k | 0 <= k < |es| :: Leads(ss[k], es[k], ss[k + 1], w, cfg)
    ensures Follows(ss, es, w, cfg)
  {
    hide Leads;
  }

  lemma QueryStep(s: Service, w: World, cfg: Config, p: Params, times: seq<int>, n: nat)
    requires Complete(w, p, times) && n < |times|
    ensures var open := s.(tasks := s.tasks + [TaskAt(w, p, times, n)]);
            && Enabled(open, Query(|s.tasks|, times[n]))
            && Next(open, Query(|s.tasks|, times[n]), w, cfg) == s.(tasks := s.tasks + [TaskAt(w, p, times, n + 1)])
  {
    TaskStep(w, p, times, n);
    hide TaskAt, Queried, Done, Complete;
    var t, u := TaskAt(w, p, times, n), TaskAt(w, p, times, n + 1);
    assert (s.tasks + [t])[|s.tasks| := u] == s.tasks + [u];
  }

  lemma FinishStep(s: Service, w: World, cfg: Config, p: Params, times: seq<int>, now: int)
    requires Complete(w, p, times)
    ensures var open, t := s.(tasks := s.tasks + [TaskAt(w, p, times, |times|)]), TaskAt(w, p, times, |times|);
            && Enabled(open, Finish(|s.tasks|, now, true))
            && Next(open, Finish(|s.tasks|, now, true), w, cfg) ==
               if Report(w, p, times) == [] then s
               else s.(entries := s.entries[PrintKey(p) := Entry(Report(w, p, times), now + Lifetime(p, cfg), t)])
  {
    TaskEnds(w, p, times);
    assert Ttl(p, cfg) == Lifetime(p, cfg);
    var t := TaskAt(w, p, times, |times|);
    assert t.p == p && t.prewarm;
    hide TaskAt, Queried, Done, Complete, Report, Result, PrintKey, Ttl, Lifetime;
    assert (s.tasks + [t])[..|s.tasks|] + (s.tasks + [t])[|s.tasks| + 1..] == s.tasks;
    assert s.answers + [] == s.answers;
  }

  /**
   From any state a pre-warming can run, its queries answered at any times, and what it leaves
   behind is the report of those times in the cache, for its time to live, and nothing else.
   */
  lemma PrewarmStoresReport(s: Service, w: World, cfg: Config, p: Params, times: seq<int>, now: int)
    returns (ss: seq<Service>)
    requires Complete(w, p, times)
    ensures Follows(ss, Events(|s.tasks|, p, times, now), w, cfg) && ss[0] == s
    ensures var t := TaskAt(w, p, times, |times|);
            ss[|times| + 2] ==
            if Report(w, p, times) == [] then s
            else s.(entries := s.entries[PrintKey(p) := Entry(Report(w, p, times), now + Lifetime(p, cfg), t)])
  {
    hide *;
    ss := seq(|times| + 3, n requires 0 <= n < |times| + 3 => Stage(s, w, cfg, p, times, now, n));
    StageEnds(s, w, cfg, p, times, now);
    forall k | 0 <= k < |times| + 2
      ensures Leads(Stage(s, w, cfg, p, times, now, k), Events(|s.tasks|, p, times, now)[k],
                     Stage(s, w, cfg, p, times, now, k + 1), w, cfg)
    {
      StageStep(s, w, cfg, p, times, now, k);
    }
    StepsFollow(ss, Events(|s.tasks|, p, times, now), w, cfg);
  }

  /** The state with the report in the cache. */
  function Stored(s: Service, w: World, cfg: Config, p: Params, times: seq<int>, now: int): Service
    requires Complete(w, p, times)
  {
    if Report(w, p, times) == [] then s
    else
      s.(entries :=
           s.entries[PrintKey(p) := Entry(Report(w, p, times), now + Lifetime(p, cfg), TaskAt(w, p, times, |times|))])
  }

  lemma PrewarmStep(s: Service, w: World, cfg: Config, p: Params, times: seq<int>)
    requires Complete(w, p, times)
    ensures Enabled(s, Prewarm(p)) && Next(s, Prewarm(p), w, cfg) == s.(tasks := s.tasks + [TaskAt(w, p, times, 0)])
  {
  }

  /** The state after the first `n` steps of the pre-warming. */
  function Stage(s: Service, w: World, cfg: Config, p: Params, times: seq<int>, now: int, n: nat): Service
    requires Complete(w, p, times)
  {
    if n == 0 then s
    else if n <= |times| + 1 then s.(tasks := s.tasks + [TaskAt(w, p, times, n - 1)])
    else Stored(s, w, cfg, p, times, now)
  }

  lemma StageEnds(s: Service, w: World, cfg: Config, p: Params, times: seq<int>, now: int)
    requires Complete(w, p, times)
    ensures Stage(s, w, cfg, p, times, now, 0) == s
    ensures Stage(s, w, cfg, p, times, now, |times| + 2) ==
            if Report(w, p, times) == [] then s
            else
              s.(entries := s.entries[PrintKey(p) :=
                   Entry(Report(w, p, times), now + Lifetime(p, cfg), TaskAt(w, p, times, |times|))])
  {
    hide Report, PrintKey, Lifetime, TaskAt;
  }

  lemma StageStep(s: Service, w: World, cfg: Config, p: Params, times: seq<int>, now: int, k: nat)
    requires Complete(w, p, times) && k < |times| + 2
    ensures Leads(Stage(s, w, cfg, p, times, now, k), Events(|s.tasks|, p, times, now)[k],
                   Stage(s, w, cfg, p, times, now, k + 1), w, cfg)
  {
    hide TaskAt, Report, Complete, PrintKey, Lifetime, Next, Enabled, Events;
    if k == 0 {
      PrewarmStep(s, w, cfg, p, times);
    } else if k <= |times| {
      assert Events(|s.tasks|, p, times, now)[k - 1 + 1] == Query(|s.tasks|, times[k - 1]);
      QueryStep(s, w, cfg, p, times, k - 1);
    } else {
      FinishStep(s, w, cfg, p, times, now);
    }
  }
}
