/** Nothing is lost unseen and nothing is saved twice, in any interleaving of the pipeline. */
module LogConservation {
  import opened LogStorage
  import opened Retry
  import opened LogPipeline

  /** Accepted logs are numbered in order of acceptance. */
  ghost predicate Numbered(s: Pipeline) {
    AllNumbered(s.accepted)
  }

  ghost predicate AllNumbered(logs: seq<Log>) {
    forall i | 0 <= i < |logs| :: logs[i].id == i
  }

  ghost predicate Conserved(s: Pipeline) {
    forall x :: Copies(s, x) == Count(s.accepted, x)
  }

  /** A flight holds something to save, and every failed attempt of its save deserved a retry. */
  ghost predicate FlightSound(f: Flight) {
    !f.Resuming? ==>
      && Saving(f) != [] && (f.SavingMemory? ==> f.batch != [])
      && forall k | 0 <= k < |f.errors| :: RetriesAfter(DATABASE_OPTIONS, k + 1, f.errors[k])
  }

  ghost predicate FlightsSound(fs: seq<Flight>) {
    forall i | 0 <= i < |fs| :: FlightSound(fs[i])
  }

  ghost predicate Sound(s: Pipeline, cfg: Config) {
    Numbered(s) && Conserved(s) && FlightsSound(s.flights) && |s.memory| <= cfg.maxSize
  }

  // ---- Conservation ----

  lemma ReplaceCopies(s: Pipeline, i: nat, heirs: seq<Flight>, x: Log)
    requires i < |s.flights|
    ensures Copies(s.(flights := Replace(s.flights, i, heirs)), x) + Count(Carried(s.flights[i]), x)
         == Copies(s, x) + InFlight(heirs, x)
  {
    InFlightReplace(s.flights, i, heirs, x);
  }

  lemma RestCopies(stopping: bool, x: Log)
    ensures InFlight(Rest(stopping), x) == 0
  {
    if stopping {
      InFlightOne(Resuming, x);
    }
  }

  lemma SavedCopies(s: Pipeline, i: nat, x: Log)
    requires i < |s.flights|
    ensures Copies(Saved(s, i), x) == Copies(s, x)
  {
    match s.flights[i]
    case SavingMemory(parked, batch, _, stopping) =>
      ReplaceCopies(s, i, [SavingBatch(batch, [], false, stopping)], x);
      InFlightOne(SavingBatch(batch, [], false, stopping), x);
      CountAppend(parked, batch, x);
      CountAppend(s.database, parked, x);
    case SavingBatch(batch, _, _, stopping) =>
      ReplaceCopies(s, i, Rest(stopping), x);
      RestCopies(stopping, x);
      CountAppend(s.database, batch, x);
    case Draining(parked, _) =>
      ReplaceCopies(s, i, [], x);
      CountAppend(s.database, parked, x);
    case Resuming =>
  }

  lemma GaveUpCopies(s: Pipeline, i: nat, error: Error, stamps: seq<int>, cfg: Config, x: Log)
    requires i < |s.flights| && |stamps| == |Saving(s.flights[i])|
    ensures Copies(GaveUp(s, i, error, stamps, cfg), x) == Copies(s, x)
  {
    hide Copies, Count, Park, Transient;
    match s.flights[i]
    case SavingMemory(parked, batch, _, stopping) =>
      var heirs := [SavingBatch(batch, [], true, stopping)];
      ReplaceCopies(s, i, heirs, x);
      InFlightOne(heirs[0], x);
      CountAppend(parked, batch, x);
      ParkCopies(s.(flights := Replace(s.flights, i, heirs)), parked, stamps, cfg, x);
    case SavingBatch(batch, _, _, stopping) =>
      ReplaceCopies(s, i, Rest(stopping), x);
      RestCopies(stopping, x);
      var landed := s.(flights := Replace(s.flights, i, Rest(stopping)));
      ParkCopies(landed, batch, stamps, cfg, x);
      RequeueCopies(landed, batch, x);
      DropCopies(landed, batch, x);
    case Draining(parked, _) =>
      ReplaceCopies(s, i, [], x);
      var landed := s.(flights := Replace(s.flights, i, []), cleanupTimer := false);
      TimerCopies(s.(flights := Replace(s.flights, i, [])), x);
      ParkCopies(landed, parked, stamps, cfg, x);
    case Resuming =>
  }

  lemma RequeueCopies(s: Pipeline, batch: seq<Log>, x: Log)
    ensures Copies(s.(queue := batch + s.queue), x) == Copies(s, x) + Count(batch, x)
  {
    CountAppend(batch, s.queue, x);
  }

  lemma DropCopies(s: Pipeline, batch: seq<Log>, x: Log)
    ensures Copies(s.(lost := s.lost + Losses(batch, QueueFull)), x) == Copies(s, x) + Count(batch, x)
  {
    LossesCount(s.lost, batch, QueueFull, x);
  }

  lemma TimerCopies(s: Pipeline, x: Log)
    ensures Copies(s.(cleanupTimer := false), x) == Copies(s, x) == Copies(s.(batchTimer := false), x)
  {
  }

  lemma CleanupCopies(s: Pipeline, now: int, maxAge: int, x: Log)
    ensures Copies(s.(memory := Keep(s.memory, now, maxAge),
                      lost := s.lost + Losses(Logs(Expired(s.memory, now, maxAge)), AgeExpiry)), x) == Copies(s, x)
  {
    hide Count;
    CleanupCount(s.memory, now, maxAge, x);
    LossesCount(s.lost, Logs(Expired(s.memory, now, maxAge)), AgeExpiry, x);
  }

  lemma ClearCopies(s: Pipeline, x: Log)
    ensures Copies(s.(memory := [], lost := s.lost + Losses(Logs(s.memory), Cleared)), x) == Copies(s, x)
  {
    LossesCount(s.lost, Logs(s.memory), Cleared, x);
    assert Logs([]) == [];
  }

  lemma PushCopies(s: Pipeline, log: Log, x: Log)
    ensures Copies(s.(queue := s.queue + [log], accepted := s.accepted + [log]), x) == Copies(s, x) + Count([log], x)
  {
    CountAppend(s.queue, [log], x);
  }

  /** The log an event brings into the pipeline, if it brings one. */
  function Accepts(s: Pipeline, e: Event): seq<Log> {
    match e
    case Add(clientId, endpoint, statusCode) => [Log(|s.accepted|, clientId, endpoint, statusCode)]
    case _ => []
  }

  /** One event moves logs between the five places; only an accepted one is new. */
  lemma NextCopies(s: Pipeline, e: Event, cfg: Config, x: Log)
    requires Enabled(s, e)
    ensures Copies(Next(s, e, cfg), x) == Copies(s, x) + Count(Accepts(s, e), x)
    ensures Next(s, e, cfg).accepted == s.accepted + Accepts(s, e)
  {
    hide Copies, Count, TakeQueue, Drain, Saved, GaveUp, Retries;
    NextAccepts(s, e, cfg);
    EmptyCount(x);
    match e
    case Add(clientId, endpoint, statusCode) =>
      var log := Log(|s.accepted|, clientId, endpoint, statusCode);
      PushCopies(s, log, x);
      TakeQueueCopies(s.(queue := s.queue + [log], accepted := s.accepted + [log]), false, x);
    case Tick => TakeQueueCopies(s, false, x);
    case Stop =>
      TimerCopies(s, x);
      TakeQueueCopies(s.(batchTimer := false), true, x);
      DrainCopies(s.(batchTimer := false), x);
    case Resume(i) =>
      ReplaceCopies(s, i, [], x);
      DrainCopies(s.(flights := Replace(s.flights, i, [])), x);
    case SaveOk(i) => SavedCopies(s, i, x);
    case SaveErr(i, error, stamps) =>
      GaveUpCopies(s, i, error, stamps, cfg, x);
      RetryCopies(s, i, error, x);
    case Cleanup(now) => CleanupCopies(s, now, cfg.maxAge, x);
    case Clear => ClearCopies(s, x);
  }

  lemma EmptyCount(x: Log)
    ensures Count([], x) == 0
  {
  }

  lemma RetryCopies(s: Pipeline, i: nat, error: Error, x: Log)
    requires i < |s.flights| && !s.flights[i].Resuming?
    ensures var f := s.flights[i];
            Copies(s.(flights := Replace(s.flights, i, [f.(errors := f.errors + [error])])), x) == Copies(s, x)
  {
    var f := s.flights[i];
    ReplaceCopies(s, i, [f.(errors := f.errors + [error])], x);
    InFlightOne(f.(errors := f.errors + [error]), x);
  }

  lemma NextAccepts(s: Pipeline, e: Event, cfg: Config)
    requires Enabled(s, e)
    ensures Next(s, e, cfg).accepted == s.accepted + Accepts(s, e)
  {
    hide Retries, Transient, Keep, Expired, Losses, Logs, Stamp;
  }

  // ---- Flights ----

  lemma ReplaceSound(fs: seq<Flight>, i: nat, heirs: seq<Flight>)
    requires FlightsSound(fs) && i < |fs| && FlightsSound(heirs)
    ensures FlightsSound(Replace(fs, i, heirs))
  {
    hide FlightSound;
  }

  lemma AppendSound(fs: seq<Flight>, f: Flight)
    requires FlightsSound(fs) && FlightSound(f)
    ensures FlightsSound(fs + [f])
  {
    hide FlightSound;
  }

  lemma RetriedSound(f: Flight, error: Error)
    requires FlightSound(f) && Retries(f, error)
    ensures FlightSound(f.(errors := f.errors + [error]))
  {
    hide RetriesAfter;
  }

  lemma TakeQueueSound(s: Pipeline, stopping: bool)
    requires FlightsSound(s.flights) && s.queue != []
    ensures FlightsSound(TakeQueue(s, stopping).flights)
  {
    var flight := TakeQueue(s, stopping).flights[|s.flights|];
    assert FlightSound(flight);
    AppendSound(s.flights, flight);
  }

  lemma DrainSound(s: Pipeline)
    requires FlightsSound(s.flights)
    ensures FlightsSound(Drain(s).flights)
  {
    if s.memory != [] {
      AppendSound(s.flights, Draining(Logs(s.memory), []));
    }
  }

  /** What takes the place of a flight whose save was settled. */
  function Heirs(f: Flight, saved: bool): seq<Flight> {
    match f
    case SavingMemory(_, batch, _, stopping) => [SavingBatch(batch, [], !saved, stopping)]
    case SavingBatch(_, _, _, stopping) => Rest(stopping)
    case Draining(_, _) => []
    case Resuming => [Resuming]
  }

  lemma HeirsSound(s: Pipeline, i: nat, saved: bool)
    requires FlightsSound(s.flights) && i < |s.flights|
    ensures FlightsSound(Replace(s.flights, i, Heirs(s.flights[i], saved)))
  {
    var heirs := Heirs(s.flights[i], saved);
    assert FlightSound(s.flights[i]);
    assert FlightsSound(heirs) by { hide RetriesAfter; }
    ReplaceSound(s.flights, i, heirs);
  }

  /** The flights after an event. */
  lemma NextFlights(s: Pipeline, e: Event, cfg: Config)
    requires Enabled(s, e)
    ensures e.SaveOk? ==> Next(s, e, cfg).flights == Replace(s.flights, e.i, Heirs(s.flights[e.i], true))
    ensures e.SaveErr? && !Retries(s.flights[e.i], e.error) ==>
              Next(s, e, cfg).flights == Replace(s.flights, e.i, Heirs(s.flights[e.i], false))
    ensures e.Cleanup? || e.Clear? ==> Next(s, e, cfg).flights == s.flights
  {
    hide Retries, Transient, Keep, Expired, Losses, Stamp, Replace, Logs;
  }

  lemma NextFlightsSound(s: Pipeline, e: Event, cfg: Config)
    requires Enabled(s, e) && FlightsSound(s.flights)
    ensures FlightsSound(Next(s, e, cfg).flights)
  {
    NextFlights(s, e, cfg);
    match e
    case Add(clientId, endpoint, statusCode) =>
      var log := Log(|s.accepted|, clientId, endpoint, statusCode);
      TakeQueueSound(s.(queue := s.queue + [log], accepted := s.accepted + [log]), false);
    case Tick =>
      if s.queue != [] {
        TakeQueueSound(s, false);
      }
    case Stop =>
      DrainSound(s.(batchTimer := false));
      if s.queue != [] {
        TakeQueueSound(s.(batchTimer := false), true);
      }
    case Resume(i) =>
      ReplaceSound(s.flights, i, []);
      DrainSound(s.(flights := Replace(s.flights, i, [])));
    case SaveOk(i) => HeirsSound(s, i, true);
    case SaveErr(i, error, stamps) =>
      var f := s.flights[i];
      if Retries(f, error) {
        assert FlightSound(f);
        RetriedSound(f, error);
        ReplaceSound(s.flights, i, [f.(errors := f.errors + [error])]);
      } else {
        HeirsSound(s, i, false);
      }
    case _ =>
  }

  lemma NextMemoryBounded(s: Pipeline, e: Event, cfg: Config)
    requires Enabled(s, e) && |s.memory| <= cfg.maxSize
    ensures |Next(s, e, cfg).memory| <= cfg.maxSize
  {
    hide Retries, Transient, Expired, Losses, Logs;
  }

  lemma NextSound(s: Pipeline, e: Event, cfg: Config)
    requires Enabled(s, e) && Sound(s, cfg)
    ensures Sound(Next(s, e, cfg), cfg)
  {
    NextFlightsSound(s, e, cfg);
    NextMemoryBounded(s, e, cfg);
    hide Copies, Count, Next, FlightsSound;
    NextAccepts(s, e, cfg);
    forall x ensures Copies(Next(s, e, cfg), x) == Count(Next(s, e, cfg).accepted, x) {
      NextCopies(s, e, cfg, x);
      CountAppend(s.accepted, Accepts(s, e), x);
    }
  }

  /** Every state of every run is sound. */
  lemma {:induction false} RunSound(ss: seq<Pipeline>, es: seq<Event>, cfg: Config, k: nat)
    requires IsRun(ss, es, cfg) && k < |ss|
    ensures Sound(ss[k], cfg)
  {
    if k == 0 {
      assert Logs([]) == [] && LostLogs([]) == [];
    } else {
      hide Sound, Next;
      RunSound(ss, es, cfg, k - 1);
      NextSound(ss[k - 1], es[k - 1], cfg);
    }
  }

  // ---- What conservation means for one log ----

  lemma {:induction false} NumberedCount(logs: seq<Log>, x: Log)
    requires AllNumbered(logs)
    ensures Count(logs, x) == if x in logs then 1 else 0
  {
    if logs == [] {
    } else {
      var init, last := logs[..|logs| - 1], logs[|logs| - 1];
      NumberedCount(init, x);
      assert logs == init + [last];
    }
  }

  /**
   In every state of every run an accepted log is in exactly one of queue, flights, memory,
   database and ledger, and once; a log that was not accepted is nowhere.
   */
  lemma ExactlyOnePlace(ss: seq<Pipeline>, es: seq<Event>, cfg: Config, k: nat, x: Log)
    requires IsRun(ss, es, cfg) && k < |ss|
    ensures Copies(ss[k], x) == if x in ss[k].accepted then 1 else 0
  {
    RunSound(ss, es, cfg, k);
    hide Copies, Count, FlightsSound;
    assert Copies(ss[k], x) == Count(ss[k].accepted, x);
    NumberedCount(ss[k].accepted, x);
  }

  lemma {:induction false} CountTwice(logs: seq<Log>, i: nat, j: nat)
    requires i < j < |logs| && logs[i] == logs[j]
    ensures Count(logs, logs[i]) >= 2
  {
    assert logs == logs[..j] + logs[j..];
    assert logs[i] in logs[..j] && logs[j] in logs[j..];
  }

  /** No log is saved twice, and no saved log is still on its way or was given up. */
  lemma NeverSavedTwice(ss: seq<Pipeline>, es: seq<Event>, cfg: Config, k: nat, i: nat, j: nat)
    requires IsRun(ss, es, cfg) && k < |ss| && i < j < |ss[k].database|
    ensures ss[k].database[i] != ss[k].database[j]
  {
    ExactlyOnePlace(ss, es, cfg, k, ss[k].database[i]);
    if ss[k].database[i] == ss[k].database[j] {
      CountTwice(ss[k].database, i, j);
    }
  }

  // ---- The ledger ----

  /** The only four ways an event may give up a log. */
  ghost predicate Accounted(s: Pipeline, e: Event, cfg: Config, l: Loss)
    requires Enabled(s, e)
  {
    match l.reason
    case CapEviction =>
      e.SaveErr? && !Retries(s.flights[e.i], e.error)
      && |s.memory| + |Saving(s.flights[e.i])| > cfg.maxSize && l.log in Logs(s.memory) + Saving(s.flights[e.i])
    case AgeExpiry => e.Cleanup? && exists p :: p in s.memory && p.log == l.log && e.now - p.storedAt >= cfg.maxAge
    case Cleared => e.Clear? && l.log in Logs(s.memory)
    case QueueFull =>
      e.SaveErr? && s.flights[e.i].SavingBatch? && l.log in s.flights[e.i].batch
      && !Retries(s.flights[e.i], e.error) && !Transient(e.error) && |s.queue| >= QUEUE_LIMIT
  }

  lemma {:induction false} ExpiredAreOld(ps: seq<Parked>, now: int, maxAge: int)
    ensures forall p | p in Expired(ps, now, maxAge) :: p in ps && !Young(p, now, maxAge)
  {
    if ps == [] {
    } else {
      ExpiredAreOld(ps[..|ps| - 1], now, maxAge);
    }
  }

  lemma ParkLedger(s: Pipeline, logs: seq<Log>, stamps: seq<int>, cfg: Config)
    requires |logs| == |stamps|
    ensures s.lost <= Park(s, logs, stamps, cfg).lost
    ensures |Park(s, logs, stamps, cfg).lost| == |s.lost| + Excess(|s.memory| + |logs|, cfg.maxSize)
    ensures forall m | |s.lost| <= m < |Park(s, logs, stamps, cfg).lost| ::
              Park(s, logs, stamps, cfg).lost[m].reason == CapEviction
              && Park(s, logs, stamps, cfg).lost[m].log in Logs(s.memory) + logs
  {
    var all := s.memory + Stamp(logs, stamps);
    var over := Excess(|all|, cfg.maxSize);
    forall m | 0 <= m < over ensures Logs(all[..over])[m] == (Logs(s.memory) + logs)[m] {
      assert all[..over][m] == all[m];
    }
  }

  /** The size of the loss an event causes. */
  function LossSize(s: Pipeline, e: Event, cfg: Config): nat
    requires Enabled(s, e)
  {
    match e
    case SaveErr(i, error, _) =>
      if Retries(s.flights[i], error) then 0
      else if s.flights[i].SavingBatch? && !Transient(error) then
        if |s.queue| < QUEUE_LIMIT then 0 else |s.flights[i].batch|
      else Excess(|s.memory| + |Saving(s.flights[i])|, cfg.maxSize)
    case Cleanup(now) => |s.memory| - |Keep(s.memory, now, cfg.maxAge)|
    case Clear => |s.memory|
    case _ => 0
  }

  /** The ledger grows by exactly the accounted losses. */
  lemma LedgerGrows(s: Pipeline, e: Event, cfg: Config)
    requires Enabled(s, e)
    ensures s.lost <= Next(s, e, cfg).lost
    ensures |Next(s, e, cfg).lost| == |s.lost| + LossSize(s, e, cfg)
    ensures forall m | |s.lost| <= m < |Next(s, e, cfg).lost| :: Accounted(s, e, cfg, Next(s, e, cfg).lost[m])
  {
    hide Retries, Transient;
    match e
    case SaveErr(i, error, stamps) =>
      if !Retries(s.flights[i], error) {
        GaveUpLedger(s, i, error, stamps, cfg);
      }
    case Cleanup(now) => CleanupLedger(s, now, cfg);
    case Clear =>
    case Resume(i) =>
    case SaveOk(i) =>
    case _ =>
  }

  lemma CleanupLedger(s: Pipeline, now: int, cfg: Config)
    requires s.cleanupTimer
    ensures var after, e := Next(s, Cleanup(now), cfg), Cleanup(now);
            && s.lost <= after.lost && |after.lost| == |s.lost| + LossSize(s, e, cfg)
            && forall m | |s.lost| <= m < |after.lost| :: Accounted(s, e, cfg, after.lost[m])
  {
    hide Keep, Expired;
    ExpiredAreOld(s.memory, now, cfg.maxAge);
    var expired := Expired(s.memory, now, cfg.maxAge);
    forall m | 0 <= m < |expired| ensures Accounted(s, Cleanup(now), cfg, Losses(Logs(expired), AgeExpiry)[m]) {
      assert expired[m] in expired;
    }
  }

  lemma GaveUpLedger(s: Pipeline, i: nat, error: Error, stamps: seq<int>, cfg: Config)
    requires Enabled(s, SaveErr(i, error, stamps)) && !Retries(s.flights[i], error)
    ensures var after, e := GaveUp(s, i, error, stamps, cfg), SaveErr(i, error, stamps);
            && s.lost <= after.lost && |after.lost| == |s.lost| + LossSize(s, e, cfg)
            && forall m | |s.lost| <= m < |after.lost| :: Accounted(s, e, cfg, after.lost[m])
  {
    hide Retries, Transient, Park, Replace;
    match s.flights[i]
    case SavingMemory(parked, batch, _, stopping) =>
      ParkLedger(s.(flights := Replace(s.flights, i, [SavingBatch(batch, [], true, stopping)])), parked, stamps, cfg);
    case SavingBatch(batch, _, _, stopping) =>
      ParkLedger(s.(flights := Replace(s.flights, i, Rest(stopping))), batch, stamps, cfg);
    case Draining(parked, _) =>
      ParkLedger(s.(flights := Replace(s.flights, i, []), cleanupTimer := false), parked, stamps, cfg);
  }

  /**
   A batch goes back to the queue, or is dropped from a full one, only after an error that is
   neither retryable nor transient; every earlier error of that save was retried.
   */
  lemma RequeueOnlyUnretryable(ss: seq<Pipeline>, es: seq<Event>, cfg: Config, k: nat)
    requires IsRun(ss, es, cfg) && k < |es| && es[k].SaveErr?
    requires || ss[k + 1].queue != ss[k].queue
             || exists l :: l in ss[k + 1].lost && l !in ss[k].lost && l.reason == QueueFull
    ensures ss[k].flights[es[k].i].SavingBatch?
    ensures !Retryable(RETRYABLE_ERRORS, es[k].error) && !Transient(es[k].error)
    ensures var earlier := ss[k].flights[es[k].i].errors;
            forall m | 0 <= m < |earlier| :: Retryable(RETRYABLE_ERRORS, earlier[m])
  {
    var s, e := ss[k], es[k];
    RunSound(ss, es, cfg, k);
    assert FlightSound(s.flights[e.i]);
    LedgerGrows(s, e, cfg);
    QueueAfterError(s, e, cfg);
    hide Transient, Next, Copies, Retryable;
    if Retryable(RETRYABLE_ERRORS, e.error) {
      RetryableIsTransient(e.error);
    }
  }

  lemma QueueAfterError(s: Pipeline, e: Event, cfg: Config)
    requires Enabled(s, e) && e.SaveErr?
    ensures Next(s, e, cfg).queue ==
            if s.flights[e.i].SavingBatch? && !Retries(s.flights[e.i], e.error) && !Transient(e.error)
               && |s.queue| < QUEUE_LIMIT
            then s.flights[e.i].batch + s.queue else s.queue
  {
    hide Retries, Transient;
  }
}
