/**
 The in-memory rate limiter that answers when Redis does not, and its reference: a limiter
 that forgets nothing and counts the admissions of the last window.
 */
module MemoryLimiter {
  import opened Timestamps

  datatype Decision = Decision(allowed: bool, remaining: int, resetAt: int, current: int)

  /** The list of one client after a check at `now`, and the answer. */
  function Check(ts: seq<int>, now: int, window: int, max: int): (seq<int>, Decision) {
    var live := After(ts, now - Millis(window));
    if |live| >= max then
      var oldest := if live != [] && live[0] != 0 then live[0] else now;
      (live, Decision(false, 0, oldest + Millis(window), |live|))
    else
      (live + [now], Decision(true, max - |live| - 1, now + Millis(window), |live| + 1))
  }

  /** The reference: every admission is kept, those after `now - W` count, the earliest sets the reset time. */
  ghost function NaiveCheck(history: seq<int>, now: int, window: int, max: int): (seq<int>, Decision) {
    var counted := After(history, now - Millis(window));
    if |counted| >= max then
      var earliest := if counted == [] then now else Earliest(counted);
      (history, Decision(false, 0, earliest + Millis(window), |counted|))
    else
      (history + [now], Decision(true, max - |counted| - 1, now + Millis(window), |counted| + 1))
  }

  // ---- Runs over many clients ----

  datatype Event = Ask(clientId: string, now: int) | Cleanup(now: int) | Reset(clientId: string)

  datatype Run = Run(store: map<string, seq<int>>, answers: seq<Decision>)

  function Get(store: map<string, seq<int>>, clientId: string): seq<int> {
    if clientId in store then store[clientId] else []
  }

  /** The periodic cleanup: every list pruned, clients left with nothing deleted. */
  function CleanStore(store: map<string, seq<int>>, start: int): map<string, seq<int>> {
    map c | c in store && After(store[c], start) != [] :: After(store[c], start)
  }

  function Advance(r: Run, e: Event, window: int, max: int): Run {
    match e
    case Ask(c, now) =>
      var (ts, answer) := Check(Get(r.store, c), now, window, max);
      Run(r.store[c := ts], r.answers + [answer])
    case Cleanup(now) => r.(store := CleanStore(r.store, now - Millis(window)))
    case Reset(c) => r.(store := r.store - {c})
  }

  ghost function NaiveAdvance(r: Run, e: Event, window: int, max: int): Run {
    match e
    case Ask(c, now) =>
      var (history, answer) := NaiveCheck(Get(r.store, c), now, window, max);
      Run(r.store[c := history], r.answers + [answer])
    case Cleanup(_) => r
    case Reset(c) => r.(store := r.store - {c})
  }

  function RunOf(es: seq<Event>, window: int, max: int): Run {
    if es == [] then Run(map[], [])
    else Advance(RunOf(es[..|es| - 1], window, max), es[|es| - 1], window, max)
  }

  ghost function NaiveRunOf(es: seq<Event>, window: int, max: int): Run {
    if es == [] then Run(map[], [])
    else NaiveAdvance(NaiveRunOf(es[..|es| - 1], window, max), es[|es| - 1], window, max)
  }

  /** The latest time read in a run; times are positive. */
  function Clock(es: seq<Event>): int {
    if es == [] then 1
    else match es[|es| - 1]
      case Ask(_, now) => now
      case Cleanup(now) => now
      case Reset(_) => Clock(es[..|es| - 1])
  }

  ghost predicate Monotone(es: seq<Event>) {
    es == [] || (Monotone(es[..|es| - 1]) && Clock(es[..|es| - 1]) <= Clock(es))
  }

  /** The run without its cleanups. */
  function Erase(es: seq<Event>): seq<Event> {
    if es == [] then []
    else Erase(es[..|es| - 1]) + (if es[|es| - 1].Cleanup? then [] else [es[|es| - 1]])
  }

  // ---- Refinement ----

  /** The pruned list and the full history of a client look the same to every call from `clock` on. */
  ghost predicate Agree(ts: seq<int>, history: seq<int>, clock: int, window: int) {
    && SameAfter(ts, history, clock - Millis(window))
    && Sorted(history)
    && Positive(history) && AtMost(history, clock)
  }

  lemma AgreeLater(ts: seq<int>, history: seq<int>, clock: int, later: int, window: int)
    requires Agree(ts, history, clock, window) && clock <= later
    ensures Agree(ts, history, later, window)
  {
    SameAfterLater(ts, history, clock - Millis(window), later - Millis(window));
  }

  lemma AgreePruned(ts: seq<int>, history: seq<int>, clock: int, window: int)
    requires Agree(ts, history, clock, window)
    ensures Agree(After(ts, clock - Millis(window)), history, clock, window)
  {
    SameAfterPruned(ts, history, clock - Millis(window));
  }

  /** In a sorted list of positive stamps the first is what both limiters take the reset time from. */
  lemma FirstIsEarliest(live: seq<int>)
    requires Sorted(live) && live != [] && forall x | x in live :: x > 0
    ensures live[0] != 0 && Earliest(live) == live[0]
  {
    assert live[0] in live;
  }

  lemma SameAnswer(ts: seq<int>, history: seq<int>, now: int, window: int, max: int)
    requires Agree(ts, history, now, window)
    ensures Check(ts, now, window, max).1 == NaiveCheck(history, now, window, max).1
  {
    var live := After(history, now - Millis(window));
    AfterKeepsSorted(history, now - Millis(window));
    AfterMembers(history, now - Millis(window));
    if live != [] {
      FirstIsEarliest(live);
    }
  }

  lemma AgreeAfterAdmission(ts: seq<int>, history: seq<int>, now: int, window: int)
    requires Agree(ts, history, now, window) && now > 0
    ensures Agree(ts + [now], history + [now], now, window)
  {
    hide SameAfter, Sorted, Positive, AtMost;
    SameAfterAppend(ts, history, now, now - Millis(window));
    SortedAppend(history, now);
  }

  lemma CheckAgrees(ts: seq<int>, history: seq<int>, now: int, window: int, max: int)
    requires Agree(ts, history, now, window) && now > 0
    ensures Check(ts, now, window, max).1 == NaiveCheck(history, now, window, max).1
    ensures Agree(Check(ts, now, window, max).0, NaiveCheck(history, now, window, max).0, now, window)
  {
    SameAnswer(ts, history, now, window, max);
    AgreePruned(ts, history, now, window);
    AgreeAfterAdmission(After(ts, now - Millis(window)), history, now, window);
  }

  ghost predicate RunsAgree(r: Run, naive: Run, clock: int, window: int) {
    && r.answers == naive.answers
    && forall c :: Agree(Get(r.store, c), Get(naive.store, c), clock, window)
  }

  lemma AdvanceAgrees(r: Run, naive: Run, e: Event, clock: int, window: int, max: int)
    requires RunsAgree(r, naive, clock, window) && clock > 0
    requires !e.Reset? ==> e.now == clock
    ensures RunsAgree(Advance(r, e, window, max), NaiveAdvance(naive, e, window, max), clock, window)
  {
    var r', naive' := Advance(r, e, window, max), NaiveAdvance(naive, e, window, max);
    forall c ensures Agree(Get(r'.store, c), Get(naive'.store, c), clock, window) {
      AdvanceAgreesOn(r, naive, e, clock, window, max, c);
    }
    if e.Ask? {
      CheckAgrees(Get(r.store, e.clientId), Get(naive.store, e.clientId), e.now, window, max);
    }
  }

  lemma AdvanceAgreesOn(r: Run, naive: Run, e: Event, clock: int, window: int, max: int, c: string)
    requires RunsAgree(r, naive, clock, window) && clock > 0
    requires !e.Reset? ==> e.now == clock
    ensures Agree(Get(Advance(r, e, window, max).store, c), Get(NaiveAdvance(naive, e, window, max).store, c),
                  clock, window)
  {
    hide SameAfter, Sorted, Positive, AtMost, Check, NaiveCheck;
    var ts, history := Get(r.store, c), Get(naive.store, c);
    assert Agree(ts, history, clock, window);
    ListAfterEvent(r, naive, e, window, max, c);
    if e.Ask? && e.clientId == c {
      CheckAgrees(ts, history, e.now, window, max);
    } else if e.Cleanup? {
      AgreePruned(ts, history, clock, window);
    } else if e.Reset? {
      AgreeEmpty(clock, window);
    }
  }

  lemma AgreeEmpty(clock: int, window: int)
    ensures Agree([], [], clock, window)
  {
  }

  /** What one event does to the list and to the history of client `c`. */
  lemma ListAfterEvent(r: Run, naive: Run, e: Event, window: int, max: int, c: string)
    ensures Get(Advance(r, e, window, max).store, c) ==
            match e
            case Ask(asking, now) => if asking == c then Check(Get(r.store, c), now, window, max).0 else Get(r.store, c)
            case Cleanup(now) => After(Get(r.store, c), now - Millis(window))
            case Reset(reset) => if reset == c then [] else Get(r.store, c)
    ensures Get(NaiveAdvance(naive, e, window, max).store, c) ==
            match e
            case Ask(asking, now) =>
              if asking == c then NaiveCheck(Get(naive.store, c), now, window, max).0 else Get(naive.store, c)
            case Cleanup(_) => Get(naive.store, c)
            case Reset(reset) => if reset == c then [] else Get(naive.store, c)
  {
  }

  lemma {:induction false} Simulation(es: seq<Event>, window: int, max: int)
    requires Monotone(es)
    ensures RunsAgree(RunOf(es, window, max), NaiveRunOf(es, window, max), Clock(es), window)
    ensures Clock(es) > 0
  {
    if es == [] {
    } else {
      var init := es[..|es| - 1];
      var r, naive := RunOf(init, window, max), NaiveRunOf(init, window, max);
      Simulation(init, window, max);
      forall c ensures Agree(Get(r.store, c), Get(naive.store, c), Clock(es), window) {
        AgreeLater(Get(r.store, c), Get(naive.store, c), Clock(init), Clock(es), window);
      }
      AdvanceAgrees(r, naive, es[|es| - 1], Clock(es), window, max);
    }
  }

  /**
   With a monotone clock the pruned limiter gives, on every call of every run, the decision,
   count and reset time of the limiter that remembers every admission.
   */
  lemma MemoryRefinesNaive(es: seq<Event>, window: int, max: int)
    requires Monotone(es)
    ensures RunOf(es, window, max).answers == NaiveRunOf(es, window, max).answers
  {
    Simulation(es, window, max);
  }

  lemma {:induction false} NaiveIgnoresCleanup(es: seq<Event>, window: int, max: int)
    ensures NaiveRunOf(Erase(es), window, max) == NaiveRunOf(es, window, max)
  {
    if es == [] {
    } else {
      var init, last := es[..|es| - 1], es[|es| - 1];
      NaiveIgnoresCleanup(init, window, max);
      if last.Cleanup? {
        assert Erase(es) == Erase(init);
      } else {
        assert Erase(es) == Erase(init) + [last] && (Erase(init) + [last])[..|Erase(init)|] == Erase(init);
      }
    }
  }

  lemma {:induction false} EraseMonotone(es: seq<Event>)
    requires Monotone(es)
    ensures Monotone(Erase(es)) && Clock(Erase(es)) <= Clock(es)
  {
    if es == [] {
    } else {
      var init, last := es[..|es| - 1], es[|es| - 1];
      EraseMonotone(init);
      if last.Cleanup? {
        assert Erase(es) == Erase(init);
      } else {
        assert Erase(es) == Erase(init) + [last] && (Erase(init) + [last])[..|Erase(init)|] == Erase(init);
      }
    }
  }

  /** Cleanups at any points of a run change no answer. */
  lemma CleanupUnseen(es: seq<Event>, window: int, max: int)
    requires Monotone(es)
    ensures RunOf(es, window, max).answers == RunOf(Erase(es), window, max).answers
  {
    NaiveIgnoresCleanup(es, window, max);
    EraseMonotone(es);
    MemoryRefinesNaive(es, window, max);
    MemoryRefinesNaive(Erase(es), window, max);
  }

  // ---- The window bound ----

  /** No window of one client's admissions holds more than `max`. */
  ghost predicate WindowsBounded(history: seq<int>, window: int, max: int) {
    forall lo, hi | hi <= lo + Millis(window) :: CountIn(history, lo, hi) <= max
  }

  lemma NaiveCheckBounded(history: seq<int>, now: int, window: int, max: int)
    requires WindowsBounded(history, window, max)
    ensures WindowsBounded(NaiveCheck(history, now, window, max).0, window, max)
  {
    forall lo, hi | hi <= lo + Millis(window)
      ensures CountIn(history + [now], lo, hi) <= max || |After(history, now - Millis(window))| >= max
    {
      CountInAppend(history, now, lo, hi);
      if lo <= now < hi {
        CountInBound(history, lo, hi, now - Millis(window));
      }
    }
  }

  // ---- Waiting out a denial ----

  lemma LiveWithin(history: seq<int>, now: int, window: int, max: int)
    requires WindowsBounded(history, window, max) && AtMost(history, now)
    ensures |After(history, now - Millis(window))| <= max
  {
    AfterCount(history, now - Millis(window), now);
    assert CountIn(history, now - Millis(window) + 1, now + 1) <= max;
  }

  /** A full window holds exactly `max` stamps, and pruning later keeps them all until the earliest goes. */
  lemma FullWindow(history: seq<int>, now: int, later: int, window: int, max: int)
    requires WindowsBounded(history, window, max) && AtMost(history, now) && now <= later && max >= 1
    requires |After(history, now - Millis(window))| >= max
    ensures var counted, left := After(history, now - Millis(window)), After(history, later - Millis(window));
            && Earliest(counted) > now - Millis(window)
            && if later < Earliest(counted) + Millis(window) then left == counted else |left| < max
  {
    hide After, WindowsBounded, AtMost;
    var start, later' := now - Millis(window), later - Millis(window);
    var counted := After(history, start);
    AfterMembers(history, start);
    AfterTwice(history, start, later');
    LiveWithin(history, now, window, max);
    if later < Earliest(counted) + Millis(window) {
      AfterAll(counted, later');
    } else {
      AfterSome(counted, Earliest(counted), later');
    }
  }

  /**
   A denial is honest: its reset time lies ahead, and a later check of the same history is denied,
   with the same reset time, exactly until then.
   */
  lemma NaiveDenialIsExact(history: seq<int>, now: int, later: int, window: int, max: int)
    requires WindowsBounded(history, window, max) && AtMost(history, now) && now <= later && max >= 1
    requires !NaiveCheck(history, now, window, max).1.allowed
    ensures var r, again := NaiveCheck(history, now, window, max).1.resetAt, NaiveCheck(history, later, window, max).1;
            now < r && (again.allowed <==> r <= later) && (!again.allowed ==> again.resetAt == r)
  {
    hide After, WindowsBounded;
    FullWindow(history, now, later, window, max);
  }

  lemma DenialKeepsHistory(history: seq<int>, now: int, window: int, max: int)
    requires !NaiveCheck(history, now, window, max).1.allowed
    ensures NaiveCheck(history, now, window, max).0 == history
  {
  }

  // ---- What an answer, a cleanup and a reset mean ----

  /**
   Of a history up to `now` the answer counts the stamps of the last window: fewer than `max` and
   the request is admitted and counted itself, otherwise it waits for the earliest of them to leave.
   */
  lemma AnswerCountsWindow(history: seq<int>, now: int, window: int, max: int)
    requires AtMost(history, now)
    ensures var answer := NaiveCheck(history, now, window, max).1;
            var n := CountIn(history, now - window * 1000 + 1, now + 1);
            && (answer.allowed <==> n < max)
            && answer.current == (if n < max then n + 1 else n)
            && answer.remaining == (if n < max then max - answer.current else 0)
            && (n < max || n == 0 ==> answer.resetAt == now + window * 1000)
            && (n >= max && n > 0 ==>
                  && (answer.resetAt - window * 1000) in history && now < answer.resetAt
                  && forall x | x in history && x > now - window * 1000 :: answer.resetAt <= x + window * 1000)
  {
    AfterCount(history, now - Millis(window), now);
    AfterMembers(history, now - Millis(window));
  }

  lemma AfterSomething(ts: seq<int>, t: int)
    ensures After(ts, t) != [] <==> exists x :: x in ts && x > t
    ensures forall x :: x in After(ts, t) <==> x in ts && x > t
  {
    AfterMembers(ts, t);
    assert After(ts, t) != [] ==> After(ts, t)[0] in After(ts, t);
  }

  /** A cleanup keeps a client exactly while one of its stamps is in the window, and of its stamps those. */
  lemma CleanupKeepsWindow(r: Run, now: int, window: int, max: int, c: string)
    ensures var store := Advance(r, Cleanup(now), window, max).store;
            && (c in store <==> c in r.store && exists x :: x in r.store[c] && x > now - window * 1000)
            && (c in store ==> forall x :: x in store[c] <==> x in r.store[c] && x > now - window * 1000)
  {
    if c in r.store {
      AfterSomething(r.store[c], now - Millis(window));
      hide After;
    }
  }

  /** A reset forgets one client: its next request is admitted as its first, and no other client notices. */
  lemma ResetForgets(r: Run, c: string, other: string, now: int, window: int, max: int)
    requires max >= 1
    ensures var reset := Advance(r, Reset(c), window, max);
            && c !in reset.store && reset.answers == r.answers
            && Check(Get(reset.store, c), now, window, max).1 == Decision(true, max - 1, now + window * 1000, 1)
            && (other != c ==>
                  (other in reset.store <==> other in r.store) && Get(reset.store, other) == Get(r.store, other))
  {
  }
}
