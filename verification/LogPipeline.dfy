/**
 The batched log pipeline as a state machine. Each event is one synchronous stretch of the
 program between two awaits; calls waiting for the database are flights, and any number of
 them may be open at once.

 `save` of an array commits all of it or nothing, and one that reports failure committed nothing.
 */
module LogPipeline {
  import opened LogStorage
  import opened Retry

  datatype Config = Config(batchSize: int, maxSize: nat, maxAge: int)

  /**
   A suspended call and the logs it holds: a flush saving what was parked before its own batch,
   a flush saving its batch, the final write-back of `stopBatchProcessor`, or that call between
   its flush and its write-back. `errors` are the failed attempts of the save under way.
   */
  datatype Flight =
    | SavingMemory(parked: seq<Log>, batch: seq<Log>, errors: seq<Error>, stopping: bool)
    | SavingBatch(batch: seq<Log>, errors: seq<Error>, writeBackFailed: bool, stopping: bool)
    | Draining(parked: seq<Log>, errors: seq<Error>)
    | Resuming

  datatype Pipeline = Pipeline(queue: seq<Log>, memory: seq<Parked>, flights: seq<Flight>, database: seq<Log>,
                               lost: seq<Loss>, accepted: seq<Log>, batchTimer: bool, cleanupTimer: bool)

  const INIT := Pipeline([], [], [], [], [], [], true, true)

  const QUEUE_LIMIT := 1000

  datatype Event =
    | Add(clientId: string, endpoint: string, statusCode: int)
    | Tick
    | Stop
    | Resume(i: nat)
    | SaveOk(i: nat)
    | SaveErr(i: nat, error: Error, stamps: seq<int>)
    | Cleanup(now: int)
    | Clear

  /** Every log a flight holds. */
  function Carried(f: Flight): seq<Log> {
    match f
    case SavingMemory(parked, batch, _, _) => parked + batch
    case SavingBatch(batch, _, _, _) => batch
    case Draining(parked, _) => parked
    case Resuming => []
  }

  /** The logs of the save a flight is waiting for. */
  function Saving(f: Flight): seq<Log> {
    match f
    case SavingMemory(parked, _, _, _) => parked
    case SavingBatch(batch, _, _, _) => batch
    case Draining(parked, _) => parked
    case Resuming => []
  }

  predicate Enabled(s: Pipeline, e: Event) {
    match e
    case Tick => s.batchTimer
    case Cleanup(_) => s.cleanupTimer
    case Resume(i) => i < |s.flights| && s.flights[i].Resuming?
    case SaveOk(i) => i < |s.flights| && !s.flights[i].Resuming?
    case SaveErr(i, _, stamps) => i < |s.flights| && !s.flights[i].Resuming? && |stamps| == |Saving(s.flights[i])|
    case _ => true
  }

  // ---- Steps ----

  /** The first stretch of `flushBatch`: the queue and the memory store are taken together. */
  function TakeQueue(s: Pipeline, stopping: bool): Pipeline {
    var flight := if s.memory != [] then SavingMemory(Logs(s.memory), s.queue, [], stopping)
                  else SavingBatch(s.queue, [], false, stopping);
    s.(queue := [], memory := [], flights := s.flights + [flight])
  }

  /** The last stretch of `stopBatchProcessor`: write back what is parked, or be done. */
  function Drain(s: Pipeline): Pipeline {
    if s.memory != [] then s.(memory := [], flights := s.flights + [Draining(Logs(s.memory), [])])
    else s.(cleanupTimer := false)
  }

  /** Storing logs in memory; the oldest beyond the cap are lost. */
  function Park(s: Pipeline, logs: seq<Log>, stamps: seq<int>, cfg: Config): Pipeline
    requires |logs| == |stamps|
  {
    var all := s.memory + Stamp(logs, stamps);
    var over := Excess(|all|, cfg.maxSize);
    s.(memory := all[over..], lost := s.lost + Losses(Logs(all[..over]), CapEviction))
  }

  function Replace(fs: seq<Flight>, i: nat, heirs: seq<Flight>): seq<Flight>
    requires i < |fs|
  {
    fs[..i] + heirs + fs[i + 1..]
  }

  /** What a flush leaves behind: nothing, or the call of `stopBatchProcessor` that awaits it. */
  function Rest(stopping: bool): seq<Flight> {
    if stopping then [Resuming] else []
  }

  function Saved(s: Pipeline, i: nat): Pipeline
    requires i < |s.flights|
  {
    match s.flights[i]
    case SavingMemory(parked, batch, _, stopping) =>
      s.(database := s.database + parked, flights := Replace(s.flights, i, [SavingBatch(batch, [], false, stopping)]))
    case SavingBatch(batch, _, _, stopping) =>
      s.(database := s.database + batch, flights := Replace(s.flights, i, Rest(stopping)))
    case Draining(parked, _) =>
      s.(database := s.database + parked, flights := Replace(s.flights, i, []), cleanupTimer := false)
    case Resuming => s
  }

  /** The save failed for good, with `error` last. */
  function GaveUp(s: Pipeline, i: nat, error: Error, stamps: seq<int>, cfg: Config): Pipeline
    requires i < |s.flights| && |stamps| == |Saving(s.flights[i])|
  {
    match s.flights[i]
    case SavingMemory(parked, batch, _, stopping) =>
      Park(s.(flights := Replace(s.flights, i, [SavingBatch(batch, [], true, stopping)])), parked, stamps, cfg)
    case SavingBatch(batch, _, _, stopping) =>
      var landed := s.(flights := Replace(s.flights, i, Rest(stopping)));
      if Transient(error) then Park(landed, batch, stamps, cfg)
      else if |s.queue| < QUEUE_LIMIT then landed.(queue := batch + s.queue)
      else landed.(lost := s.lost + Losses(batch, QueueFull))
    case Draining(parked, _) =>
      Park(s.(flights := Replace(s.flights, i, []), cleanupTimer := false), parked, stamps, cfg)
    case Resuming => s
  }

  /** Whether the save of a flight, failing with `error`, is attempted again. */
  predicate Retries(f: Flight, error: Error) {
    !f.Resuming? && RetriesAfter(DATABASE_OPTIONS, |f.errors| + 1, error)
  }

  function Next(s: Pipeline, e: Event, cfg: Config): Pipeline
    requires Enabled(s, e)
  {
    match e
    case Add(clientId, endpoint, statusCode) =>
      var log := Log(|s.accepted|, clientId, endpoint, statusCode);
      var pushed := s.(queue := s.queue + [log], accepted := s.accepted + [log]);
      if |pushed.queue| >= cfg.batchSize then TakeQueue(pushed, false) else pushed
    case Tick => if s.queue != [] then TakeQueue(s, false) else s
    case Stop =>
      var untimed := s.(batchTimer := false);
      if s.queue != [] then TakeQueue(untimed, true) else Drain(untimed)
    case Resume(i) => Drain(s.(flights := Replace(s.flights, i, [])))
    case SaveOk(i) => Saved(s, i)
    case SaveErr(i, error, stamps) =>
      var f := s.flights[i];
      if Retries(f, error) then s.(flights := Replace(s.flights, i, [f.(errors := f.errors + [error])]))
      else GaveUp(s, i, error, stamps, cfg)
    case Cleanup(now) =>
      s.(memory := Keep(s.memory, now, cfg.maxAge),
         lost := s.lost + Losses(Logs(Expired(s.memory, now, cfg.maxAge)), AgeExpiry))
    case Clear => s.(memory := [], lost := s.lost + Losses(Logs(s.memory), Cleared))
  }

  /** `ss` are the states of a run whose events are `es`. */
  ghost predicate IsRun(ss: seq<Pipeline>, es: seq<Event>, cfg: Config) {
    && |ss| == |es| + 1 && ss[0] == INIT
    && forall k | 0 <= k < |es| :: Enabled(ss[k], es[k]) && ss[k + 1] == Next(ss[k], es[k], cfg)
  }

  // ---- Where a log is ----

  function Count(logs: seq<Log>, x: Log): nat {
    multiset(logs)[x]
  }

  function InFlight(fs: seq<Flight>, x: Log): nat {
    if fs == [] then 0 else InFlight(fs[..|fs| - 1], x) + Count(Carried(fs[|fs| - 1]), x)
  }

  function LostLogs(lost: seq<Loss>): seq<Log> {
    seq(|lost|, i requires 0 <= i < |lost| => lost[i].log)
  }

  /** How often a log occurs in queue, flights, memory, database and ledger together. */
  function Copies(s: Pipeline, x: Log): nat {
    Count(s.queue, x) + InFlight(s.flights, x) + Count(Logs(s.memory), x)
    + Count(s.database, x) + Count(LostLogs(s.lost), x)
  }

  lemma CountAppend(a: seq<Log>, b: seq<Log>, x: Log)
    ensures Count(a + b, x) == Count(a, x) + Count(b, x)
  {
  }

  lemma {:induction false} InFlightAppend(a: seq<Flight>, b: seq<Flight>, x: Log)
    ensures InFlight(a + b, x) == InFlight(a, x) + InFlight(b, x)
  {
    if b == [] {
      assert a + b == a;
    } else {
      assert (a + b)[..|a + b| - 1] == a + b[..|b| - 1];
      InFlightAppend(a, b[..|b| - 1], x);
    }
  }

  lemma InFlightReplace(fs: seq<Flight>, i: nat, heirs: seq<Flight>, x: Log)
    requires i < |fs|
    ensures InFlight(Replace(fs, i, heirs), x) + Count(Carried(fs[i]), x) == InFlight(fs, x) + InFlight(heirs, x)
  {
    assert fs == fs[..i] + [fs[i]] + fs[i + 1..];
    InFlightAppend(fs[..i] + [fs[i]], fs[i + 1..], x);
    InFlightAppend(fs[..i], [fs[i]], x);
    InFlightAppend(fs[..i] + heirs, fs[i + 1..], x);
    InFlightAppend(fs[..i], heirs, x);
    InFlightOne(fs[i], x);
  }

  lemma InFlightOne(f: Flight, x: Log)
    ensures InFlight([f], x) == Count(Carried(f), x)
  {
    assert [f][..0] == [];
  }

  lemma LossesCount(lost: seq<Loss>, logs: seq<Log>, reason: Reason, x: Log)
    ensures Count(LostLogs(lost + Losses(logs, reason)), x) == Count(LostLogs(lost), x) + Count(logs, x)
  {
    assert LostLogs(lost + Losses(logs, reason)) == LostLogs(lost) + logs;
  }

  lemma TakeQueueCopies(s: Pipeline, stopping: bool, x: Log)
    ensures Copies(TakeQueue(s, stopping), x) == Copies(s, x)
  {
    var flight := TakeQueue(s, stopping).flights[|s.flights|];
    InFlightAppend(s.flights, [flight], x);
    InFlightOne(flight, x);
    CountAppend(Logs(s.memory), s.queue, x);
    hide InFlight;
    assert Logs([]) == [];
  }

  lemma DrainCopies(s: Pipeline, x: Log)
    ensures Copies(Drain(s), x) == Copies(s, x)
  {
    InFlightAppend(s.flights, [Draining(Logs(s.memory), [])], x);
    InFlightOne(Draining(Logs(s.memory), []), x);
    hide InFlight;
    assert Logs([]) == [];
  }

  lemma SplitCount(ps: seq<Parked>, k: nat, x: Log)
    requires k <= |ps|
    ensures Count(Logs(ps), x) == Count(Logs(ps[..k]), x) + Count(Logs(ps[k..]), x)
  {
    assert Logs(ps) == Logs(ps[..k]) + Logs(ps[k..]);
  }

  lemma ParkCopies(s: Pipeline, logs: seq<Log>, stamps: seq<int>, cfg: Config, x: Log)
    requires |logs| == |stamps|
    ensures Copies(Park(s, logs, stamps, cfg), x) == Copies(s, x) + Count(logs, x)
  {
    var all := s.memory + Stamp(logs, stamps);
    var over := Excess(|all|, cfg.maxSize);
    assert Logs(all) == Logs(s.memory) + logs;
    CountAppend(Logs(s.memory), logs, x);
    SplitCount(all, over, x);
    LossesCount(s.lost, Logs(all[..over]), CapEviction, x);
    hide InFlight, Count, Logs, Losses, LostLogs;
  }

  lemma {:induction false} CleanupCount(ps: seq<Parked>, now: int, maxAge: int, x: Log)
    ensures Count(Logs(ps), x) == Count(Logs(Keep(ps, now, maxAge)), x) + Count(Logs(Expired(ps, now, maxAge)), x)
  {
    if ps == [] {
    } else {
      var init, last := ps[..|ps| - 1], ps[|ps| - 1];
      CleanupCount(init, now, maxAge, x);
      LogsAppend(init, last, x);
      LogsAppend(Keep(init, now, maxAge), last, x);
      LogsAppend(Expired(init, now, maxAge), last, x);
      hide Count, Logs;
      assert ps == init + [last];
      assert Keep(init, now, maxAge) + [] == Keep(init, now, maxAge);
      assert Expired(init, now, maxAge) + [] == Expired(init, now, maxAge);
    }
  }

  lemma LogsAppend(ps: seq<Parked>, p: Parked, x: Log)
    ensures Count(Logs(ps + [p]), x) == Count(Logs(ps), x) + (if p.log == x then 1 else 0)
  {
    assert Logs(ps + [p]) == Logs(ps) + [p.log];
  }
}
