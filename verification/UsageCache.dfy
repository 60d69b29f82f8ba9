/**
 The usage reports and their cache. Readers and pre-warmers run interleaved, every database
 query of a report may see different data, and cache calls may fail.
 */
module UsageCache {
  import opened CacheKeys
  import opened UsageRows

  /** What each query would answer at each time; the SQL behind it is not modelled. */
  datatype World = World(clients: int -> seq<string>, daily: (int, string, Num) -> seq<DayRow>,
                         top: (int, Num, Num) -> seq<Row>)

  /** A time to live; the environment schema admits positive ones only. */
  type Seconds = n: int | n > 0 witness 1

  datatype Config = Config(ttlDaily: Seconds, ttlTop: Seconds)

  /** A report being computed: the times of its queries so far and what they returned. */
  datatype Task = Task(p: Params, prewarm: bool, times: seq<int>, clients: seq<string>, rows: seq<Row>)

  /** A cached report; `writer` is the computation that stored it. */
  datatype Entry = Entry(rows: seq<Row>, expiresAt: int, writer: Task)

  datatype Answer = Hit(p: Params, at: int, rows: seq<Row>) | Computed(p: Params, rows: seq<Row>) | Failure(p: Params)

  /** `accesses` are the reads whose hit or miss reached its counter. */
  datatype Service = Service(entries: map<string, Entry>, tasks: seq<Task>, answers: seq<Answer>,
                             accesses: seq<(Params, bool)>)

  datatype Event =
    | Read(p: Params, now: int, cacheUp: bool, tracked: bool)
    | Prewarm(p: Params)
    | Query(i: nat, now: int)
    | QueryFails(i: nat)
    | Finish(i: nat, now: int, cacheUp: bool)

  function Ttl(p: Params, cfg: Config): int {
    1000 * (if p.Daily? then cfg.ttlDaily else cfg.ttlTop)
  }

  // ---- Reference: the report of a sequence of query times ----

  /** The rows of the first `n` clients, the k-th read at `times[k + 1]`. */
  function Collect(w: World, days: Num, clients: seq<string>, times: seq<int>, n: nat): seq<Row>
    requires n <= |clients| && n < |times|
  {
    if n == 0 then [] else Collect(w, days, clients, times, n - 1) + w.daily(times[n], clients[n - 1], days)
  }

  /** One query time for the list of clients and one for each, or a single one for the top clients. */
  predicate Complete(w: World, p: Params, times: seq<int>) {
    times != [] && |times| == if p.Daily? then 1 + |w.clients(times[0])| else 1
  }

  function Report(w: World, p: Params, times: seq<int>): seq<Row>
    requires Complete(w, p, times)
  {
    match p
    case Daily(days) => SortRows(Collect(w, days, w.clients(times[0]), times, |times| - 1))
    case Top(hours, limit) => w.top(times[0], hours, limit)
  }

  // ---- Steps ----

  function Start(p: Params, prewarm: bool): Task {
    Task(p, prewarm, [], [], [])
  }

  /** All queries of the computation have returned. */
  predicate Done(t: Task) {
    t.times != [] && (t.p.Daily? ==> |t.times| > |t.clients|)
  }

  function Queried(w: World, t: Task, now: int): Task
    requires !Done(t)
  {
    match t.p
    case Daily(days) =>
      if t.times == [] then t.(times := [now], clients := w.clients(now))
      else t.(times := t.times + [now], rows := t.rows + w.daily(now, t.clients[|t.times| - 1], days))
    case Top(hours, limit) => t.(times := [now], rows := w.top(now, hours, limit))
  }

  function Result(t: Task): seq<Row> {
    if t.p.Daily? then SortRows(t.rows) else t.rows
  }

  predicate CacheHit(s: Service, p: Params, now: int) {
    PrintKey(p) in s.entries && now <= s.entries[PrintKey(p)].expiresAt && s.entries[PrintKey(p)].rows != []
  }

  predicate Enabled(s: Service, e: Event) {
    match e
    case Read(_, _, _, _) => true
    case Prewarm(_) => true
    case Query(i, _) => i < |s.tasks| && !Done(s.tasks[i])
    case QueryFails(i) => i < |s.tasks| && !Done(s.tasks[i])
    case Finish(i, _, _) => i < |s.tasks| && Done(s.tasks[i])
  }

  function Without(tasks: seq<Task>, i: nat): seq<Task>
    requires i < |tasks|
  {
    tasks[..i] + tasks[i + 1..]
  }

  /** Only readers answer; a pre-warmer just leaves its report in the cache. */
  function Reply(t: Task, answer: Answer): seq<Answer> {
    if t.prewarm then [] else [answer]
  }

  /** Counting an access may fail, which nobody waits for. */
  function Counted(tracked: bool, p: Params, isHit: bool): seq<(Params, bool)> {
    if tracked then [(p, isHit)] else []
  }

  function Next(s: Service, e: Event, w: World, cfg: Config): Service
    requires Enabled(s, e)
  {
    match e
    case Read(p, now, cacheUp, tracked) =>
      if cacheUp && CacheHit(s, p, now) then
        s.(answers := s.answers + [Hit(p, now, s.entries[PrintKey(p)].rows)],
           accesses := s.accesses + Counted(tracked, p, true))
      else s.(tasks := s.tasks + [Start(p, false)], accesses := s.accesses + Counted(tracked, p, false))
    case Prewarm(p) => s.(tasks := s.tasks + [Start(p, true)])
    case Query(i, now) => s.(tasks := s.tasks[i := Queried(w, s.tasks[i], now)])
    case QueryFails(i) =>
      s.(tasks := Without(s.tasks, i), answers := s.answers + Reply(s.tasks[i], Failure(s.tasks[i].p)))
    case Finish(i, now, cacheUp) =>
      var t := s.tasks[i];
      var rows := Result(t);
      s.(entries := if rows != [] && cacheUp then s.entries[PrintKey(t.p) := Entry(rows, now + Ttl(t.p, cfg), t)]
                    else s.entries,
         tasks := Without(s.tasks, i), answers := s.answers + Reply(t, Computed(t.p, rows)))
  }

  ghost predicate IsRun(ss: seq<Service>, es: seq<Event>, w: World, cfg: Config) {
    && |ss| == |es| + 1 && ss[0] == Service(map[], [], [], [])
    && forall k | 0 <= k < |es| :: Enabled(ss[k], es[k]) && ss[k + 1] == Next(ss[k], es[k], w, cfg)
  }

  /** A result is stored within `d` of every query it was computed from. */
  ghost predicate Timely(s: Service, e: Event, d: int)
    requires Enabled(s, e)
  {
    e.Finish? ==> StoredWithin(s.tasks[e.i].times, e.now, d)
  }

  ghost predicate StoredWithin(times: seq<int>, now: int, d: int) {
    forall k | 0 <= k < |times| :: now <= times[k] + d
  }

  // ---- Tasks compute reports ----

  /** The computation has collected what its query times say. */
  ghost predicate TaskSound(w: World, t: Task) {
    && (t.times == [] ==> t.rows == [] && t.clients == [])
    && (t.times != [] ==>
          match t.p
          case Daily(days) =>
            t.clients == w.clients(t.times[0]) && |t.times| <= 1 + |t.clients|
            && t.rows == Collect(w, days, t.clients, t.times, |t.times| - 1)
          case Top(hours, limit) => |t.times| == 1 && t.rows == w.top(t.times[0], hours, limit))
  }

  lemma {:induction false} CollectPrefix(w: World, days: Num, clients: seq<string>, times: seq<int>, now: int, n: nat)
    requires n <= |clients| && n < |times|
    ensures Collect(w, days, clients, times + [now], n) == Collect(w, days, clients, times, n)
  {
    if n == 0 {
    } else {
      CollectPrefix(w, days, clients, times, now, n - 1);
    }
  }

  lemma QueriedSound(w: World, t: Task, now: int)
    requires TaskSound(w, t) && !Done(t)
    ensures TaskSound(w, Queried(w, t, now))
  {
    if t.p.Daily? && t.times != [] {
      CollectPrefix(w, t.p.days, t.clients, t.times, now, |t.times| - 1);
    }
  }

  /** A finished computation, step by step, is the report of its query times. */
  lemma DoneIsReport(w: World, t: Task)
    requires TaskSound(w, t) && Done(t)
    ensures Complete(w, t.p, t.times) && Result(t) == Report(w, t.p, t.times)
  {
  }

  // ---- What a daily report holds ----

  lemma {:induction false} CollectedRows(w: World, days: Num, clients: seq<string>, times: seq<int>, n: nat, r: Row)
    requires n <= |clients| && n < |times|
    ensures r in Collect(w, days, clients, times, n) <==>
            exists k :: 1 <= k <= n && r in w.daily(times[k], clients[k - 1], days)
    ensures forall x | x in Collect(w, days, clients, times, n) :: x.Day?
  {
    if n == 0 {
    } else {
      CollectedRows(w, days, clients, times, n - 1, r);
      hide Collect;
      CollectStep(w, days, clients, times, n);
    }
  }

  lemma CollectStep(w: World, days: Num, clients: seq<string>, times: seq<int>, n: nat)
    requires 1 <= n <= |clients| && n < |times|
    ensures Collect(w, days, clients, times, n) ==
            Collect(w, days, clients, times, n - 1) + w.daily(times[n], clients[n - 1], days)
  {
  }

  /** A daily report holds every row read for a client, and no other. */
  lemma ReportRows(w: World, days: Num, times: seq<int>, r: Row)
    requires Complete(w, Daily(days), times)
    ensures r in Report(w, Daily(days), times) <==>
            exists k :: 1 <= k < |times| && r in w.daily(times[k], w.clients(times[0])[k - 1], days)
  {
    var clients := w.clients(times[0]);
    var rows := Collect(w, days, clients, times, |times| - 1);
    CollectedRows(w, days, clients, times, |times| - 1, r);
    SortPermutes(rows);
    hide Collect, SortRows;
    assert r in SortRows(rows) <==> r in multiset(SortRows(rows));
    assert r in rows <==> r in multiset(rows);
  }

  /** A daily report comes with later dates first, and of one date with larger counts first. */
  lemma ReportLatestFirst(w: World, days: Num, times: seq<int>, i: nat, j: nat)
    requires Complete(w, Daily(days), times) && i < j < |Report(w, Daily(days), times)|
    ensures var a, b := Report(w, Daily(days), times)[i], Report(w, Daily(days), times)[j];
            && a.Day? && b.Day?
            && (a.date > b.date || (a.date == b.date && a.requestCount >= b.requestCount))
  {
    var rows := Collect(w, days, w.clients(times[0]), times, |times| - 1);
    CollectedRows(w, days, w.clients(times[0]), times, |times| - 1, Day(0, 0, 0.0, 0));
    hide SortRows, Collect;
    forall x | x in rows ensures x.Day? {
    }
    LatestFirst(rows, i, j);
  }

  // ---- Freshness ----

  ghost predicate ReportAt(w: World, p: Params, rows: seq<Row>, times: seq<int>) {
    Complete(w, p, times) && rows == Report(w, p, times)
  }

  /** The rows are a report for `p` all of whose queries ran at `since` or later. */
  ghost predicate ReportSince(w: World, p: Params, rows: seq<Row>, since: int) {
    exists times :: ReportAt(w, p, rows, times) && forall k | 0 <= k < |times| :: since <= times[k]
  }

  ghost predicate EntrySound(w: World, cfg: Config, d: int, key: string, e: Entry) {
    && key == PrintKey(e.writer.p) && TaskSound(w, e.writer) && Done(e.writer)
    && e.rows == Result(e.writer) && e.rows != []
    && StoredWithin(e.writer.times, e.expiresAt - Ttl(e.writer.p, cfg), d)
  }

  ghost predicate AnswerSound(w: World, cfg: Config, d: int, a: Answer) {
    match a
    case Hit(p, at, rows) => rows != [] && ReportSince(w, p, rows, at - Ttl(p, cfg) - d)
    case Computed(p, rows) => exists times :: ReportAt(w, p, rows, times)
    case Failure(_) => true
  }

  ghost predicate Sound(s: Service, w: World, cfg: Config, d: int) {
    && (forall k | k in s.entries :: EntrySound(w, cfg, d, k, s.entries[k]))
    && (forall i | 0 <= i < |s.tasks| :: TaskSound(w, s.tasks[i]))
    && (forall i | 0 <= i < |s.answers| :: AnswerSound(w, cfg, d, s.answers[i]))
  }

  /** A hit under the key of `p` found a report for `p`, because keys are distinct. */
  lemma HitSound(s: Service, w: World, cfg: Config, d: int, p: Params, now: int)
    requires Sound(s, w, cfg, d) && CacheHit(s, p, now)
    ensures AnswerSound(w, cfg, d, Hit(p, now, s.entries[PrintKey(p)].rows))
  {
    var e := s.entries[PrintKey(p)];
    assert EntrySound(w, cfg, d, PrintKey(p), e);
    KeysDistinct(p, e.writer.p);
    DoneIsReport(w, e.writer);
    assert ReportAt(w, p, e.rows, e.writer.times);
  }

  lemma NextSound(s: Service, e: Event, w: World, cfg: Config, d: int)
    requires Enabled(s, e) && Timely(s, e, d) && Sound(s, w, cfg, d)
    ensures Sound(Next(s, e, w, cfg), w, cfg, d)
  {
    hide PrintKey, Done, Queried, TaskSound, AnswerSound, Result, Ttl;
    match e
    case Read(p, now, cacheUp, tracked) =>
      StartSound(w, p, false);
      if cacheUp && CacheHit(s, p, now) {
        HitSound(s, w, cfg, d, p, now);
      }
    case Prewarm(p) => StartSound(w, p, true);
    case Query(i, now) => QueriedSound(w, s.tasks[i], now);
    case QueryFails(i) => FailureSound(w, cfg, d, s.tasks[i].p);
    case Finish(i, now, cacheUp) =>
      var t := s.tasks[i];
      assert TaskSound(w, t);
      ComputedSound(w, cfg, d, t);
  }

  lemma StartSound(w: World, p: Params, prewarm: bool)
    ensures TaskSound(w, Start(p, prewarm))
  {
  }

  lemma FailureSound(w: World, cfg: Config, d: int, p: Params)
    ensures AnswerSound(w, cfg, d, Failure(p))
  {
  }

  lemma ComputedSound(w: World, cfg: Config, d: int, t: Task)
    requires TaskSound(w, t) && Done(t)
    ensures AnswerSound(w, cfg, d, Computed(t.p, Result(t)))
  {
    DoneIsReport(w, t);
    assert ReportAt(w, t.p, Result(t), t.times);
  }

  lemma EmptySound(w: World, cfg: Config, d: int)
    ensures Sound(Service(map[], [], [], []), w, cfg, d)
  {
  }

  lemma {:induction false} RunSound(ss: seq<Service>, es: seq<Event>, w: World, cfg: Config, d: int, k: nat)
    requires IsRun(ss, es, w, cfg) && k < |ss|
    requires forall j | 0 <= j < |es| :: Timely(ss[j], es[j], d)
    ensures Sound(ss[k], w, cfg, d)
  {
    hide Next, Enabled, Sound, Timely;
    if k == 0 {
      EmptySound(w, cfg, d);
    } else {
      RunSound(ss, es, w, cfg, d, k - 1);
      NextSound(ss[k - 1], es[k - 1], w, cfg, d);
    }
  }

  /**
   Every cache hit answers with a non-empty report for exactly the parameters asked for, none of
   whose queries began earlier than the time to live plus the longest computation before it.
   */
  lemma HitsAreFresh(ss: seq<Service>, es: seq<Event>, w: World, cfg: Config, d: int, k: nat, i: nat)
    requires IsRun(ss, es, w, cfg) && k < |ss| && i < |ss[k].answers| && ss[k].answers[i].Hit?
    requires forall j | 0 <= j < |es| :: Timely(ss[j], es[j], d)
    ensures var a := ss[k].answers[i];
            var ttl := 1000 * if a.p.Daily? then cfg.ttlDaily else cfg.ttlTop;
            a.rows != [] && ReportSince(w, a.p, a.rows, a.at - ttl - d)
  {
    RunSound(ss, es, w, cfg, d, k);
    assert AnswerSound(w, cfg, d, ss[k].answers[i]);
  }

  // ---- Transparency ----

  /** The data do not change. */
  ghost predicate Steady(w: World) {
    && (forall t :: w.clients(t) == w.clients(0))
    && (forall t, c, days :: w.daily(t, c, days) == w.daily(0, c, days))
    && (forall t, hours, limit :: w.top(t, hours, limit) == w.top(0, hours, limit))
  }

  lemma SteadyAt(w: World, t: int, c: string, x: Num, y: Num)
    requires Steady(w)
    ensures w.clients(t) == w.clients(0) && w.daily(t, c, x) == w.daily(0, c, x) && w.top(t, x, y) == w.top(0, x, y)
  {
  }

  lemma {:induction false} SteadyCollect(w: World, days: Num, clients: seq<string>,
                                         times: seq<int>, others: seq<int>, n: nat)
    requires Steady(w) && n <= |clients| && n < |times| && n < |others|
    ensures Collect(w, days, clients, times, n) == Collect(w, days, clients, others, n)
  {
    if n == 0 {
    } else {
      SteadyCollect(w, days, clients, times, others, n - 1);
      SteadyAt(w, times[n], clients[n - 1], days, days);
      SteadyAt(w, others[n], clients[n - 1], days, days);
    }
  }

  lemma SteadyReport(w: World, p: Params, times: seq<int>, others: seq<int>)
    requires Steady(w) && Complete(w, p, times) && Complete(w, p, others)
    ensures Report(w, p, times) == Report(w, p, others)
  {
    match p
    case Daily(days) =>
      SteadyAt(w, times[0], "", days, days);
      SteadyAt(w, others[0], "", days, days);
      SteadyCollect(w, days, w.clients(times[0]), times, others, |times| - 1);
    case Top(hours, limit) =>
      SteadyAt(w, times[0], "", hours, limit);
      SteadyAt(w, others[0], "", hours, limit);
  }

  /** One query time per query, all at the same moment. */
  function AtOnce(w: World, p: Params): (times: seq<int>)
    ensures Complete(w, p, times)
  {
    if p.Daily? then seq(1 + |w.clients(0)|, _ => 0) else [0]
  }

  /** The rows a request gets when there is no cache. */
  function Direct(w: World, p: Params): seq<Row> {
    Report(w, p, AtOnce(w, p))
  }

  lemma {:induction false} SomeAge(times: seq<int>, now: int) returns (d: nat)
    ensures StoredWithin(times, now, d)
  {
    d := 0;
    if times == [] {
    } else {
      var rest := SomeAge(times[1..], now);
      d := if now - times[0] > rest then now - times[0] else rest;
      assert forall k | 0 < k < |times| :: times[k] == times[1..][k - 1];
    }
  }

  /** In every run there is a longest computation. */
  lemma {:induction false} SomeBound(ss: seq<Service>, es: seq<Event>, w: World, cfg: Config, n: nat) returns (d: nat)
    requires IsRun(ss, es, w, cfg) && n <= |es|
    ensures forall j | 0 <= j < n :: Timely(ss[j], es[j], d)
  {
    d := 0;
    if n == 0 {
    } else {
      hide Next;
      var before := SomeBound(ss, es, w, cfg, n - 1);
      var e := es[n - 1];
      var times := if e.Finish? then ss[n - 1].tasks[e.i].times else [];
      var last := SomeAge(times, if e.Finish? then e.now else 0);
      d := if before > last then before else last;
      forall j | 0 <= j < n ensures Timely(ss[j], es[j], d) {
        assert j < n - 1 ==> Timely(ss[j], es[j], before);
      }
    }
  }

  lemma DirectUnique(w: World, p: Params, rows: seq<Row>, times: seq<int>)
    requires Steady(w) && ReportAt(w, p, rows, times)
    ensures rows == Direct(w, p)
  {
    SteadyReport(w, p, times, AtOnce(w, p));
  }

  /**
   While the data do not change, every successful response carries the rows of the uncached
   computation, whichever cache reads and writes fail and however calls interleave.
   */
  lemma CacheIsTransparent(ss: seq<Service>, es: seq<Event>, w: World, cfg: Config, k: nat, i: nat)
    requires IsRun(ss, es, w, cfg) && Steady(w) && k < |ss| && i < |ss[k].answers| && !ss[k].answers[i].Failure?
    ensures ss[k].answers[i].rows == Direct(w, ss[k].answers[i].p)
  {
    hide Next, ReportAt, Steady, Direct, Enabled, Timely;
    var d := SomeBound(ss, es, w, cfg, |es|);
    RunSound(ss, es, w, cfg, d, k);
    var a := ss[k].answers[i];
    assert AnswerSound(w, cfg, d, a);
    var times :| ReportAt(w, a.p, a.rows, times);
    DirectUnique(w, a.p, a.rows, times);
  }

  /** Every successful daily answer comes with later dates first, and of one date with larger counts first. */
  lemma AnswersLatestFirst(ss: seq<Service>, es: seq<Event>, w: World, cfg: Config, k: nat, a: Answer, i: nat, j: nat)
    requires IsRun(ss, es, w, cfg) && k < |ss| && a in ss[k].answers && !a.Failure? && a.p.Daily?
    requires i < j < |a.rows|
    ensures var x, y := a.rows[i], a.rows[j];
            x.Day? && y.Day? && (x.date > y.date || (x.date == y.date && x.requestCount >= y.requestCount))
  {
    hide Next, ReportAt, Enabled, Timely;
    var d := SomeBound(ss, es, w, cfg, |es|);
    RunSound(ss, es, w, cfg, d, k);
    assert AnswerSound(w, cfg, d, a);
    var times :| ReportAt(w, a.p, a.rows, times);
    ReportedLatestFirst(w, a.p, a.rows, times, i, j);
  }

  lemma ReportedLatestFirst(w: World, p: Params, rows: seq<Row>, times: seq<int>, i: nat, j: nat)
    requires ReportAt(w, p, rows, times) && p.Daily? && i < j < |rows|
    ensures rows[i].Day? && rows[j].Day?
    ensures || rows[i].date > rows[j].date
            || (rows[i].date == rows[j].date && rows[i].requestCount >= rows[j].requestCount)
  {
    ReportLatestFirst(w, p.days, times, i, j);
  }
}
