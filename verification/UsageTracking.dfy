/** From the reads of a run to the keys worth pre-warming. */
module UsageTracking {
  import opened CacheKeys
  import opened HotKeys
  import opened UsageCache
  import opened UsageAnswers

  /** How many reads of `p` the cache answered. */
  function Served(answers: seq<Answer>, p: Params): nat {
    if answers == [] then 0
    else Served(answers[..|answers| - 1], p) + One(answers[|answers| - 1].Hit? && answers[|answers| - 1].p == p)
  }

  function CountOf(accesses: seq<(Params, bool)>, p: Params, isHit: bool): nat {
    multiset(accesses)[(p, isHit)]
  }

  lemma CountOne(accesses: seq<(Params, bool)>, q: Params, wasHit: bool, p: Params, isHit: bool)
    ensures CountOf(accesses + [(q, wasHit)], p, isHit) == CountOf(accesses, p, isHit) + One(q == p && wasHit == isHit)
    ensures accesses + [] == accesses
  {
  }

  lemma ServedAppend(answers: seq<Answer>, a: Answer, p: Params)
    ensures Served(answers + [a], p) == Served(answers, p) + One(a.Hit? && a.p == p)
    ensures answers + [] == answers
  {
    assert (answers + [a])[..|answers|] == answers;
  }

  /** A tracked read is counted once: as a hit when the cache answers it, and otherwise as a miss. */
  lemma NextCounts(s: Service, e: Event, w: World, cfg: Config, p: Params)
    requires Enabled(s, e) && (e.Read? ==> e.tracked)
    ensures var s' := Next(s, e, w, cfg);
            var asked := One(e.Read? && e.p == p);
            && CountOf(s'.accesses, p, true) - Served(s'.answers, p) ==
               CountOf(s.accesses, p, true) - Served(s.answers, p)
            && CountOf(s'.accesses, p, true) + CountOf(s'.accesses, p, false) ==
               CountOf(s.accesses, p, true) + CountOf(s.accesses, p, false) + asked
  {
    hide CountOf, Served, CacheHit, Done, Result, PrintKey;
    match e
    case Read(q, now, cacheUp, tracked) =>
      forall wasHit, isHit ensures CountOf(s.accesses + [(q, wasHit)], p, isHit) ==
                                   CountOf(s.accesses, p, isHit) + One(q == p && wasHit == isHit)
      {
        CountOne(s.accesses, q, wasHit, p, isHit);
      }
      if cacheUp && CacheHit(s, q, now) {
        ServedHit(s, q, now, p);
      }
    case Prewarm(_) =>
    case Query(_, _) =>
    case QueryFails(i) => ServedAppend(s.answers, Failure(s.tasks[i].p), p);
    case Finish(i, now, cacheUp) => ServedAppend(s.answers, Computed(s.tasks[i].p, Result(s.tasks[i])), p);
  }

  lemma ServedHit(s: Service, q: Params, now: int, p: Params)
    requires CacheHit(s, q, now)
    ensures Served(s.answers + [Hit(q, now, s.entries[PrintKey(q)].rows)], p) == Served(s.answers, p) + One(q == p)
  {
    ServedAppend(s.answers, Hit(q, now, s.entries[PrintKey(q)].rows), p);
  }

  /** When every access is counted, the counters of a run are its cache hits and its other reads. */
  lemma {:induction false} RunCounts(ss: seq<Service>, es: seq<Event>, w: World, cfg: Config, k: nat, p: Params)
    requires IsRun(ss, es, w, cfg) && k <= |es|
    requires forall j | 0 <= j < k && es[j].Read? :: es[j].tracked
    ensures CountOf(ss[k].accesses, p, true) == Served(ss[k].answers, p)
    ensures CountOf(ss[k].accesses, p, true) + CountOf(ss[k].accesses, p, false) == Asked(es[..k], p)
  {
    if k == 0 {
    } else {
      hide Next, CountOf, Served;
      RunCounts(ss, es, w, cfg, k - 1, p);
      NextCounts(ss[k - 1], es[k - 1], w, cfg, p);
      assert es[..k][..k - 1] == es[..k - 1];
    }
  }

  /**
   After any run whose accesses were all counted, a scan pre-warms exactly the reports that the
   cache served for fewer than half of their reads, among those read more often than their threshold.
   */
  lemma HotIffMostlyMissed(ss: seq<Service>, es: seq<Event>, w: World, cfg: Config, thresholds: map<string, int>,
                           keys: seq<string>, hotKeys: seq<string>, p: Params)
    requires IsRun(ss, es, w, cfg) && forall e | e in es && e.Read? :: e.tracked
    requires forall key :: key in keys <==> key in CountersOf(ss[|es|].accesses)
    requires IsScan(keys, CountersOf(ss[|es|].accesses), thresholds, hotKeys)
    ensures PrintKey(p) in hotKeys <==>
            && 2 * Served(ss[|es|].answers, p) < Asked(es, p)
            && Asked(es, p) > if PrintKey(p) in thresholds then thresholds[PrintKey(p)] else 100
  {
    hide IsScan, Next, Served, CountersOf;
    RunCounts(ss, es, w, cfg, |es|, p);
    assert es[..|es|] == es;
    ScanOfAccesses(ss[|es|].accesses, thresholds, keys, hotKeys, p);
  }
}
