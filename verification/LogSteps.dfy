/** What each event of the pipeline does, in terms of its fields alone, and why a write-back counts as failed. */
module LogSteps {
  import opened LogStorage
  import opened Retry
  import opened LogPipeline
  import opened LogConservation
  import opened Optional

  // ---- Taking the queue ----

  /**
   From `s` to `after` the parked logs and `batch` went into one new flight, which saves the parked
   ones first and the batch at once when there are none.
   */
  ghost predicate TakenTogether(s: Pipeline, batch: seq<Log>, stopping: bool, after: Pipeline) {
    && after.queue == [] && after.memory == [] && after.database == s.database && after.lost == s.lost
    && |after.flights| == |s.flights| + 1 && after.flights[..|s.flights|] == s.flights
    && var f := after.flights[|s.flights|];
       && Carried(f) == Logs(s.memory) + batch && Saving(f) == (if s.memory != [] then Logs(s.memory) else batch)
       && !f.Resuming? && f.errors == []
       && (if s.memory == [] then f.SavingBatch? && f.stopping == stopping && !f.writeBackFailed
           else f.SavingMemory? && f.parked == Logs(s.memory) && f.batch == batch && f.stopping == stopping)
  }

  lemma TakeQueueTakes(s: Pipeline, stopping: bool)
    ensures TakenTogether(s, s.queue, stopping, TakeQueue(s, stopping))
  {
    assert Logs([]) == [];
  }

  /** An add that fills the batch, a tick and a stop take the queue and the parked logs together. */
  lemma FlushTakesBoth(s: Pipeline, e: Event, cfg: Config)
    requires Enabled(s, e)
    ensures e.Add? && |s.queue| + 1 >= cfg.batchSize ==>
              TakenTogether(s, s.queue + Accepts(s, e), false, Next(s, e, cfg))
    ensures e.Tick? && s.queue != [] ==> TakenTogether(s, s.queue, false, Next(s, e, cfg))
    ensures e.Stop? && s.queue != [] ==> TakenTogether(s, s.queue, true, Next(s, e, cfg))
  {
    hide TakeQueue, Drain, Saved, GaveUp, Retries, Keep, Expired, Losses, Logs, Carried, Saving;
    match e
    case Add(_, _, _) =>
      TakeQueueTakes(s.(queue := s.queue + Accepts(s, e), accepted := s.accepted + Accepts(s, e)), false);
    case Tick => TakeQueueTakes(s, false);
    case Stop => TakeQueueTakes(s.(batchTimer := false), true);
    case _ =>
  }

  /** Any other add only queues its log, a tick without a queue does nothing, and clearing forgets what is parked. */
  lemma OtherwiseNothingMoves(s: Pipeline, e: Event, cfg: Config)
    requires Enabled(s, e)
    ensures e.Add? && |s.queue| + 1 < cfg.batchSize ==>
              Next(s, e, cfg) == s.(queue := s.queue + Accepts(s, e), accepted := s.accepted + Accepts(s, e))
    ensures e.Tick? && s.queue == [] ==> Next(s, e, cfg) == s
    ensures e.Clear? ==> Next(s, e, cfg) == s.(memory := [], lost := Next(s, e, cfg).lost)
  {
  }

  /** A shutdown without a queue, or back from its flush, writes back what is parked or ends. */
  lemma ShutdownWritesBack(s: Pipeline, e: Event, cfg: Config)
    requires Enabled(s, e) && ((e.Stop? && s.queue == []) || e.Resume?)
    ensures var rest := if e.Stop? then s.flights else s.flights[..e.i] + s.flights[e.i + 1..];
            var timer := s.batchTimer && !e.Stop?;
            Next(s, e, cfg) ==
            if s.memory == [] then s.(flights := rest, batchTimer := timer, cleanupTimer := false)
            else s.(flights := rest + [Draining(Logs(s.memory), [])], batchTimer := timer, memory := [])
  {
    if e.Resume? {
      assert s.flights[..e.i] + [] + s.flights[e.i + 1..] == s.flights[..e.i] + s.flights[e.i + 1..];
    }
    hide Logs;
  }

  // ---- Saving ----

  /** A save that commits puts its logs at the end of the database; a flush then goes on to its batch. */
  lemma SaveCommits(s: Pipeline, i: nat, cfg: Config)
    requires Enabled(s, SaveOk(i))
    ensures var f, after := s.flights[i], Next(s, SaveOk(i), cfg);
            && after.database == s.database + Saving(f) && after.queue == s.queue && after.memory == s.memory
            && after.lost == s.lost && after.cleanupTimer == (s.cleanupTimer && !f.Draining?)
            && after.flights == s.flights[..i] + Successor(f, false) + s.flights[i + 1..]
  {
  }

  /** What a flight becomes when its save is settled: the batch after the parked logs, then the waiting shutdown. */
  function Successor(f: Flight, failed: bool): seq<Flight> {
    match f
    case SavingMemory(_, batch, _, stopping) => [SavingBatch(batch, [], failed, stopping)]
    case SavingBatch(_, _, _, stopping) => if stopping then [Resuming] else []
    case Draining(_, _) => []
    case Resuming => [f]
  }

  /** A retryable failure is retried, three times at most, and changes nothing else. */
  lemma FailureRetried(s: Pipeline, i: nat, error: Error, stamps: seq<int>, cfg: Config)
    requires Enabled(s, SaveErr(i, error, stamps)) && |s.flights[i].errors| < 3 && Retryable(RETRYABLE_ERRORS, error)
    ensures var f := s.flights[i];
            Next(s, SaveErr(i, error, stamps), cfg) == s.(flights := s.flights[i := f.(errors := f.errors + [error])])
  {
    hide Retryable;
    var again := s.flights[i].(errors := s.flights[i].errors + [error]);
    assert s.flights[..i] + [again] + s.flights[i + 1..] == s.flights[i := again];
  }

  /** Of the parked logs and `logs` the newest that fit are parked, the new ones with the time of their storing. */
  ghost predicate Parks(s: Pipeline, logs: seq<Log>, stamps: seq<int>, cap: nat, after: Pipeline)
    requires |logs| == |stamps|
  {
    var n := |s.memory| + |logs|;
    && |after.memory| == (if n <= cap then n else cap)
    && Logs(after.memory) == (Logs(s.memory) + logs)[n - |after.memory|..]
    && forall j | 0 <= j < |after.memory| ::
         var from := n - |after.memory| + j;
         after.memory[j].storedAt == if from < |s.memory| then s.memory[from].storedAt else stamps[from - |s.memory|]
  }

  lemma ParkParks(s: Pipeline, logs: seq<Log>, stamps: seq<int>, cfg: Config)
    requires |logs| == |stamps|
    ensures Parks(s, logs, stamps, cfg.maxSize, Park(s, logs, stamps, cfg))
  {
  }

  /**
   A failure that is not retryable, or is the fourth, ends the save. Logs being written back are
   parked again, and a flush goes on with its batch. A batch is parked after a transient error;
   after any other it goes back to the front of a queue shorter than 1000, or is lost.
   */
  lemma FailureEndsSave(s: Pipeline, i: nat, error: Error, stamps: seq<int>, cfg: Config)
    requires Enabled(s, SaveErr(i, error, stamps))
    requires |s.flights[i].errors| >= 3 || !Retryable(RETRYABLE_ERRORS, error)
    ensures var f, after := s.flights[i], Next(s, SaveErr(i, error, stamps), cfg);
            && after.flights == s.flights[..i] + Successor(f, true) + s.flights[i + 1..]
            && after.database == s.database && after.cleanupTimer == (s.cleanupTimer && !f.Draining?)
            && if !f.SavingBatch? || Transient(error) then
                 after.queue == s.queue && Parks(s, Saving(f), stamps, cfg.maxSize, after)
               else
                 && after.memory == s.memory
                 && if |s.queue| < 1000 then after.queue == f.batch + s.queue && after.lost == s.lost
                    else after.queue == s.queue && LostLogs(after.lost) == LostLogs(s.lost) + f.batch
  {
    hide Retryable, Transient, Park, Parks, Logs;
    var f := s.flights[i];
    var landed := s.(flights := Replace(s.flights, i, Successor(f, true)),
                     cleanupTimer := s.cleanupTimer && !f.Draining?);
    ParkParks(landed, Saving(f), stamps, cfg);
    ParkMemoryOnly(landed, Saving(f), stamps, cfg);
    SameParks(s, landed, Saving(f), stamps, cfg.maxSize, Park(landed, Saving(f), stamps, cfg));
    assert LostLogs(s.lost + Losses(Saving(f), QueueFull)) == LostLogs(s.lost) + Saving(f);
  }

  lemma ParkMemoryOnly(s: Pipeline, logs: seq<Log>, stamps: seq<int>, cfg: Config)
    requires |logs| == |stamps|
    ensures var after := Park(s, logs, stamps, cfg); after == s.(memory := after.memory, lost := after.lost)
  {
  }

  lemma SameParks(s: Pipeline, t: Pipeline, logs: seq<Log>, stamps: seq<int>, cap: nat, after: Pipeline)
    requires |logs| == |stamps| && s.memory == t.memory && Parks(t, logs, stamps, cap, after)
    ensures Parks(s, logs, stamps, cap, after)
  {
  }

  // ---- Whose write-back failed ----

  /** Which flight of `s` the flight at `j` after event `e` was, if it was open already. */
  function Origin(s: Pipeline, e: Event, cfg: Config, j: nat): (o: Option<nat>)
    requires Enabled(s, e) && j < |Next(s, e, cfg).flights|
  {
    match e
    case Resume(i) => if j < i then Some(j) else if j + 1 < |s.flights| then Some(j + 1) else None
    case SaveOk(i) => Some(if j < i || |Next(s, e, cfg).flights| == |s.flights| then j else j + 1)
    case SaveErr(i, _, _) => Some(if j < i || |Next(s, e, cfg).flights| == |s.flights| then j else j + 1)
    case _ => if j < |s.flights| then Some(j) else None
  }

  /**
   Flight `j` of state `k` once waited to write back parked logs, and a failure ended that save,
   the fourth or one that is not retryable.
   */
  ghost predicate LostItsWriteBack(ss: seq<Pipeline>, es: seq<Event>, cfg: Config, k: nat, j: nat)
    requires IsRun(ss, es, cfg) && k < |ss| && j < |ss[k].flights|
  {
    k > 0 &&
    var s, e := ss[k - 1], es[k - 1];
    match Origin(s, e, cfg, j)
    case None => false
    case Some(o) =>
      o < |s.flights| &&
      ((e.SaveErr? && e.i == o && s.flights[o].SavingMemory?
        && (|s.flights[o].errors| >= 3 || !Retryable(RETRYABLE_ERRORS, e.error)))
       || LostItsWriteBack(ss, es, cfg, k - 1, o))
  }

  /** `f` is what the event made of flight `o` of `s`, or a flight it opened. */
  ghost predicate CameFrom(s: Pipeline, e: Event, f: Flight, o: Option<nat>) {
    match o
    case None => f.SavingBatch? ==> !f.writeBackFailed
    case Some(i) =>
      i < |s.flights| &&
      var was := s.flights[i];
      if (e.SaveOk? || e.SaveErr?) && e.i == i then
        if e.SaveErr? && !was.Resuming? && |was.errors| < 3 && Retryable(RETRYABLE_ERRORS, e.error)
        then f == was.(errors := was.errors + [e.error])
        else Successor(was, e.SaveErr?) == [f]
      else f == was
  }

  lemma SettledBefore(s: Pipeline, e: Event, flights: seq<Flight>, heirs: seq<Flight>, j: nat)
    requires (e.SaveOk? || e.SaveErr?) && Enabled(s, e) && |heirs| <= 1
    requires flights == s.flights[..e.i] + heirs + s.flights[e.i + 1..] && j < |flights|
    ensures var o := if j < e.i || |flights| == |s.flights| then j else j + 1;
            o < |s.flights| && if o == e.i then heirs == [flights[j]] else flights[j] == s.flights[o]
  {
  }

  lemma TakenBefore(s: Pipeline, batch: seq<Log>, stopping: bool, after: Pipeline, e: Event, j: nat)
    requires TakenTogether(s, batch, stopping, after) && j < |after.flights| && !e.SaveOk? && !e.SaveErr?
    ensures CameFrom(s, e, after.flights[j], if j < |s.flights| then Some(j) else None)
  {
    hide Logs, Carried, Saving;
    if j < |s.flights| {
      assert after.flights[..|s.flights|][j] == s.flights[j];
    }
  }

  lemma SaveErrBefore(s: Pipeline, e: Event, cfg: Config, j: nat)
    requires Enabled(s, e) && e.SaveErr? && j < |Next(s, e, cfg).flights|
    ensures CameFrom(s, e, Next(s, e, cfg).flights[j], Origin(s, e, cfg, j))
  {
    hide Next, Retryable, Parks, Transient;
    var f := s.flights[e.i];
    if |f.errors| < 3 && Retryable(RETRYABLE_ERRORS, e.error) {
      FailureRetried(s, e.i, e.error, e.stamps, cfg);
      assert s.flights[e.i := f.(errors := f.errors + [e.error])]
          == s.flights[..e.i] + [f.(errors := f.errors + [e.error])] + s.flights[e.i + 1..];
      SettledBefore(s, e, Next(s, e, cfg).flights, [f.(errors := f.errors + [e.error])], j);
    } else {
      FailureEndsSave(s, e.i, e.error, e.stamps, cfg);
      SettledBefore(s, e, Next(s, e, cfg).flights, Successor(f, true), j);
    }
  }

  lemma SaveOkBefore(s: Pipeline, e: Event, cfg: Config, j: nat)
    requires Enabled(s, e) && e.SaveOk? && j < |Next(s, e, cfg).flights|
    ensures CameFrom(s, e, Next(s, e, cfg).flights[j], Origin(s, e, cfg, j))
  {
    hide Next, Retryable;
    SaveCommits(s, e.i, cfg);
    SettledBefore(s, e, Next(s, e, cfg).flights, Successor(s.flights[e.i], false), j);
  }

  lemma StretchBefore(s: Pipeline, e: Event, cfg: Config, j: nat)
    requires Enabled(s, e) && (e.Stop? || e.Resume?) && j < |Next(s, e, cfg).flights|
    ensures CameFrom(s, e, Next(s, e, cfg).flights[j], Origin(s, e, cfg, j))
  {
    hide Next, TakenTogether, Logs;
    if e.Stop? && s.queue != [] {
      FlushTakesBoth(s, e, cfg);
      TakenBefore(s, s.queue, true, Next(s, e, cfg), e, j);
    } else {
      ShutdownWritesBack(s, e, cfg);
    }
  }

  lemma PushedBefore(s: Pipeline, e: Event, cfg: Config, j: nat)
    requires Enabled(s, e) && (e.Add? || e.Tick?) && j < |Next(s, e, cfg).flights|
    ensures CameFrom(s, e, Next(s, e, cfg).flights[j], Origin(s, e, cfg, j))
  {
    hide Next, TakenTogether, Accepts;
    FlushTakesBoth(s, e, cfg);
    OtherwiseNothingMoves(s, e, cfg);
    if e.Add? && |s.queue| + 1 >= cfg.batchSize {
      TakenBefore(s, s.queue + Accepts(s, e), false, Next(s, e, cfg), e, j);
    } else if e.Tick? && s.queue != [] {
      TakenBefore(s, s.queue, false, Next(s, e, cfg), e, j);
    }
  }

  lemma FlightBefore(s: Pipeline, e: Event, cfg: Config, j: nat)
    requires Enabled(s, e) && j < |Next(s, e, cfg).flights|
    ensures CameFrom(s, e, Next(s, e, cfg).flights[j], Origin(s, e, cfg, j))
  {
    match e
    case Add(_, _, _) => PushedBefore(s, e, cfg, j);
    case Tick => PushedBefore(s, e, cfg, j);
    case Stop => StretchBefore(s, e, cfg, j);
    case Resume(_) => StretchBefore(s, e, cfg, j);
    case SaveOk(_) => SaveOkBefore(s, e, cfg, j);
    case SaveErr(_, _, _) => SaveErrBefore(s, e, cfg, j);
    case _ =>
  }

  /** In every run a batch goes on past parked logs exactly when its own flush failed to write them back. */
  lemma {:induction false} WriteBackFailedIff(ss: seq<Pipeline>, es: seq<Event>, cfg: Config, k: nat, j: nat)
    requires IsRun(ss, es, cfg) && k < |ss| && j < |ss[k].flights| && !ss[k].flights[j].Resuming?
    ensures (ss[k].flights[j].SavingBatch? && ss[k].flights[j].writeBackFailed) <==> LostItsWriteBack(ss, es, cfg, k, j)
  {
    hide Next, Retryable;
    assert k > 0;
    var s, e := ss[k - 1], es[k - 1];
    FlightBefore(s, e, cfg, j);
    if o: nat :| Origin(s, e, cfg, j) == Some(o) {
      if !s.flights[o].Resuming? {
        WriteBackFailedIff(ss, es, cfg, k - 1, o);
      }
    }
  }
}
