/** Every request for a report is answered once, for its own parameters. */
module UsageAnswers {
  import opened CacheKeys
  import opened UsageCache

  function One(b: bool): nat {
    if b then 1 else 0
  }

  /** How many reads asked for `p`. */
  function Asked(es: seq<Event>, p: Params): nat {
    if es == [] then 0 else Asked(es[..|es| - 1], p) + One(es[|es| - 1].Read? && es[|es| - 1].p == p)
  }

  function Answered(answers: seq<Answer>, p: Params): nat {
    if answers == [] then 0 else Answered(answers[..|answers| - 1], p) + One(answers[|answers| - 1].p == p)
  }

  /** The computation is one of a pre-warmer, or of a reader, for `p`. */
  predicate IsFor(t: Task, p: Params, prewarm: bool) {
    t.prewarm == prewarm && t.p == p
  }

  /** How many pre-warmers, or readers, are still computing the report for `p`. */
  function Open(tasks: seq<Task>, p: Params, prewarm: bool): nat {
    if tasks == [] then 0 else Open(tasks[..|tasks| - 1], p, prewarm) + One(IsFor(tasks[|tasks| - 1], p, prewarm))
  }

  lemma OpenAppend(tasks: seq<Task>, t: Task, p: Params, prewarm: bool)
    ensures Open(tasks + [t], p, prewarm) == Open(tasks, p, prewarm) + One(IsFor(t, p, prewarm))
  {
    assert (tasks + [t])[..|tasks|] == tasks;
  }

  lemma {:induction false} OpenConcat(a: seq<Task>, b: seq<Task>, p: Params, prewarm: bool)
    ensures Open(a + b, p, prewarm) == Open(a, p, prewarm) + Open(b, p, prewarm)
  {
    if b == [] {
      assert a + b == a;
    } else {
      var init, last := b[..|b| - 1], b[|b| - 1];
      assert a + b == (a + init) + [last] && b == init + [last];
      OpenAppend(a + init, last, p, prewarm);
      OpenAppend(init, last, p, prewarm);
      OpenConcat(a, init, p, prewarm);
    }
  }

  lemma OpenSplit(tasks: seq<Task>, i: nat, t: Task, p: Params, prewarm: bool)
    requires i < |tasks|
    ensures Open(tasks[i := t], p, prewarm) == Open(Without(tasks, i), p, prewarm) + One(IsFor(t, p, prewarm))
  {
    hide Open;
    assert tasks[i := t] == (tasks[..i] + [t]) + tasks[i + 1..];
    OpenConcat(tasks[..i] + [t], tasks[i + 1..], p, prewarm);
    OpenAppend(tasks[..i], t, p, prewarm);
    OpenConcat(tasks[..i], tasks[i + 1..], p, prewarm);
  }

  lemma AnsweredReply(answers: seq<Answer>, t: Task, a: Answer, p: Params)
    requires a.p == t.p
    ensures Answered(answers + Reply(t, a), p) == Answered(answers, p) + One(IsFor(t, p, false))
  {
    assert (answers + [a])[..|answers|] == answers;
    assert answers + [] == answers;
  }

  function Owed(s: Service, p: Params): nat {
    Answered(s.answers, p) + Open(s.tasks, p, false)
  }

  /** Ending task `i` with an answer leaves nothing more or less owed. */
  lemma Settled(s: Service, i: nat, a: Answer, p: Params)
    requires i < |s.tasks| && a.p == s.tasks[i].p
    ensures Answered(s.answers + Reply(s.tasks[i], a), p) + Open(Without(s.tasks, i), p, false) == Owed(s, p)
  {
    hide Answered, Open, Reply;
    OpenSplit(s.tasks, i, s.tasks[i], p, false);
    assert s.tasks[i := s.tasks[i]] == s.tasks;
    AnsweredReply(s.answers, s.tasks[i], a, p);
  }

  /** A read owes one more answer; every other step leaves what is owed alone. */
  lemma NextOwes(s: Service, e: Event, w: World, cfg: Config, p: Params)
    requires Enabled(s, e)
    ensures Owed(Next(s, e, w, cfg), p) == Owed(s, p) + One(e.Read? && e.p == p)
  {
    hide Answered, Open, CacheHit, Done, Result, Reply;
    match e
    case Read(asked, now, cacheUp, tracked) =>
      OpenAppend(s.tasks, Start(asked, false), p, false);
      if cacheUp && CacheHit(s, asked, now) {
        HitAnswers(s, asked, now, p);
      }
    case Prewarm(asked) => OpenAppend(s.tasks, Start(asked, true), p, false);
    case Query(i, now) =>
      OpenSplit(s.tasks, i, s.tasks[i], p, false);
      OpenSplit(s.tasks, i, Queried(w, s.tasks[i], now), p, false);
      assert s.tasks[i := s.tasks[i]] == s.tasks;
    case QueryFails(i) => Settled(s, i, Failure(s.tasks[i].p), p);
    case Finish(i, now, cacheUp) => Settled(s, i, Computed(s.tasks[i].p, Result(s.tasks[i])), p);
  }

  lemma HitAnswers(s: Service, asked: Params, now: int, p: Params)
    requires CacheHit(s, asked, now)
    ensures Answered(s.answers + [Hit(asked, now, s.entries[PrintKey(asked)].rows)], p)
         == Answered(s.answers, p) + One(asked == p)
  {
    AnsweredReply(s.answers, Start(asked, false), Hit(asked, now, s.entries[PrintKey(asked)].rows), p);
  }

  /**
   In every run and at every moment, each read has exactly one answer, for the parameters it asked
   for, or is still computing; pre-warmers answer nobody.
   */
  lemma {:induction false} EveryReadAnsweredOnce(ss: seq<Service>, es: seq<Event>, w: World, cfg: Config,
                                                 k: nat, p: Params)
    requires IsRun(ss, es, w, cfg) && k <= |es|
    ensures Asked(es[..k], p) == Answered(ss[k].answers, p) + Open(ss[k].tasks, p, false)
  {
    if k == 0 {
    } else {
      hide Next;
      EveryReadAnsweredOnce(ss, es, w, cfg, k - 1, p);
      NextOwes(ss[k - 1], es[k - 1], w, cfg, p);
      assert es[..k][..k - 1] == es[..k - 1];
    }
  }

  /** Cache failures never fail a request: without a failed database query every answer succeeds. */
  lemma {:induction false} OnlyQueriesFail(ss: seq<Service>, es: seq<Event>, w: World, cfg: Config, k: nat)
    requires IsRun(ss, es, w, cfg) && k <= |es|
    requires forall j | 0 <= j < k :: !es[j].QueryFails?
    ensures forall a | a in ss[k].answers :: !a.Failure?
  {
    if k == 0 {
    } else {
      OnlyQueriesFail(ss, es, w, cfg, k - 1);
    }
  }

  // ---- Answers and failures ----

  /** A finished reader is answered with its rows and a failed one with a failure; no other step but a hit answers. */
  lemma WhoIsAnswered(s: Service, e: Event, w: World, cfg: Config)
    requires Enabled(s, e) && !e.Read?
    ensures var after := Next(s, e, w, cfg).answers;
            if e.Finish? && !s.tasks[e.i].prewarm then
              after == s.answers + [Computed(s.tasks[e.i].p, Result(s.tasks[e.i]))]
            else if e.QueryFails? && !s.tasks[e.i].prewarm then after == s.answers + [Failure(s.tasks[e.i].p)]
            else after == s.answers
    ensures e.QueryFails? ==> Next(s, e, w, cfg).entries == s.entries
  {
  }

  // ---- Pre-warmers ----

  /** How often pre-warming of `p` was asked for. */
  function Prewarms(es: seq<Event>, p: Params): nat {
    if es == [] then 0 else Prewarms(es[..|es| - 1], p) + One(es[|es| - 1] == Prewarm(p))
  }

  /** The event ends a pre-warming of `p`: its report is finished, or a query failed. */
  predicate EndsPrewarm(s: Service, e: Event, p: Params)
    requires Enabled(s, e)
  {
    (e.Finish? || e.QueryFails?) && s.tasks[e.i].prewarm && s.tasks[e.i].p == p
  }

  ghost function Ended(ss: seq<Service>, es: seq<Event>, w: World, cfg: Config, k: nat, p: Params): nat
    requires IsRun(ss, es, w, cfg) && k <= |es|
  {
    if k == 0 then 0 else Ended(ss, es, w, cfg, k - 1, p) + One(EndsPrewarm(ss[k - 1], es[k - 1], p))
  }

  lemma NextOpens(s: Service, e: Event, w: World, cfg: Config, p: Params)
    requires Enabled(s, e)
    ensures Open(Next(s, e, w, cfg).tasks, p, true) + One(EndsPrewarm(s, e, p)) ==
            Open(s.tasks, p, true) + One(e == Prewarm(p))
  {
    hide Open, CacheHit, Done, Result, Reply;
    match e
    case Read(asked, _, _, _) => OpenAppend(s.tasks, Start(asked, false), p, true);
    case Prewarm(asked) => OpenAppend(s.tasks, Start(asked, true), p, true);
    case Query(i, now) =>
      OpenSplit(s.tasks, i, s.tasks[i], p, true);
      OpenSplit(s.tasks, i, Queried(w, s.tasks[i], now), p, true);
      assert s.tasks[i := s.tasks[i]] == s.tasks;
    case QueryFails(i) =>
      OpenSplit(s.tasks, i, s.tasks[i], p, true);
      assert s.tasks[i := s.tasks[i]] == s.tasks;
    case Finish(i, _, _) =>
      OpenSplit(s.tasks, i, s.tasks[i], p, true);
      assert s.tasks[i := s.tasks[i]] == s.tasks;
  }

  /** In every run each pre-warming asked for has ended, finished or failed, once, or is still computing. */
  lemma {:induction false} EveryPrewarmRuns(ss: seq<Service>, es: seq<Event>, w: World, cfg: Config, k: nat, p: Params)
    requires IsRun(ss, es, w, cfg) && k <= |es|
    ensures Prewarms(es[..k], p) == Ended(ss, es, w, cfg, k, p) + Open(ss[k].tasks, p, true)
  {
    if k == 0 {
    } else {
      hide Next, EndsPrewarm;
      EveryPrewarmRuns(ss, es, w, cfg, k - 1, p);
      NextOpens(ss[k - 1], es[k - 1], w, cfg, p);
      assert es[..k][..k - 1] == es[..k - 1];
    }
  }
}
