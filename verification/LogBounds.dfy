/** How far the queue and the memory store can grow, and what a clean shutdown leaves behind. */
module LogBounds {
  import opened LogStorage
  import opened Retry
  import opened LogPipeline
  import opened LogConservation

  // ---- The queue ----

  /** What an event leaves in the queue. */
  lemma QueueAfter(s: Pipeline, e: Event, cfg: Config)
    requires Enabled(s, e)
    ensures e.Add? ==> Next(s, e, cfg).queue == if |s.queue| + 1 >= cfg.batchSize then [] else s.queue + Accepts(s, e)
    ensures e.Tick? || e.Stop? ==> Next(s, e, cfg).queue == []
    ensures !e.Add? && !e.Tick? && !e.Stop? && !e.SaveErr? ==> Next(s, e, cfg).queue == s.queue
    ensures e.SaveErr? ==> Next(s, e, cfg).queue == s.queue || Requeues(s, e, cfg)
  {
    hide Retries, Transient, Logs, Stamp, Losses, Replace, Keep, Expired;
  }

  /** The event puts a failed batch back in front of the queue. */
  ghost predicate Requeues(s: Pipeline, e: Event, cfg: Config)
    requires Enabled(s, e)
  {
    e.SaveErr? && s.flights[e.i].SavingBatch? && Next(s, e, cfg).queue == s.flights[e.i].batch + s.queue
  }

  /** Adding never leaves a full batch waiting. */
  lemma AddLeavesShortQueue(s: Pipeline, e: Event, cfg: Config)
    requires e.Add? && cfg.batchSize > 0
    ensures |Next(s, e, cfg).queue| < cfg.batchSize
  {
  }

  /** The event drops a batch because the queue is full. */
  ghost predicate Drops(s: Pipeline, e: Event, cfg: Config)
    requires Enabled(s, e)
  {
    exists l :: l in Next(s, e, cfg).lost && l !in s.lost && l.reason == QueueFull
  }

  /** Between two points of a run nothing is accepted and no timer or shutdown takes the queue. */
  ghost predicate Quiet(es: seq<Event>, from: nat, to: nat)
    requires to <= |es|
  {
    forall m | from <= m < to :: !es[m].Add? && !es[m].Tick? && !es[m].Stop?
  }

  lemma {:induction false} LongQueueWasRequeued(ss: seq<Pipeline>, es: seq<Event>, cfg: Config, k: nat) returns (j: nat)
    requires IsRun(ss, es, cfg) && cfg.batchSize <= QUEUE_LIMIT && k <= |es| && |ss[k].queue| >= QUEUE_LIMIT
    ensures j < k && Requeues(ss[j], es[j], cfg) && |ss[j + 1].queue| >= QUEUE_LIMIT && Quiet(es, j, k)
  {
    hide Next, Requeues, Enabled;
    assert k > 0;
    var s, e := ss[k - 1], es[k - 1];
    assert Enabled(s, e) && ss[k] == Next(s, e, cfg);
    QueueAfter(s, e, cfg);
    if e.SaveErr? && Requeues(s, e, cfg) {
      j := k - 1;
    } else {
      assert ss[k].queue == s.queue || e.Add?;
      j := LongQueueWasRequeued(ss, es, cfg, k - 1);
    }
  }

  /**
   A batch is dropped as "queue full" only after a re-queue, with nothing accepted and no timer
   tick in between, has brought the queue to the limit.
   */
  lemma QueueFullNeedsRequeue(ss: seq<Pipeline>, es: seq<Event>, cfg: Config, k: nat)
    requires IsRun(ss, es, cfg) && cfg.batchSize <= QUEUE_LIMIT && k < |es| && Drops(ss[k], es[k], cfg)
    ensures exists j: nat :: j < k && Requeues(ss[j], es[j], cfg) && |ss[j + 1].queue| >= QUEUE_LIMIT && Quiet(es, j, k)
  {
    LedgerGrows(ss[k], es[k], cfg);
    hide Next, Requeues;
    var l :| l in Next(ss[k], es[k], cfg).lost && l !in ss[k].lost && l.reason == QueueFull;
    var j := LongQueueWasRequeued(ss, es, cfg, k);
  }

  // ---- The memory store ----

  /** The clock readings of an event; a stretch that parks nothing may be given any later stamps. */
  function Times(e: Event): seq<int> {
    match e
    case SaveErr(_, _, stamps) => stamps
    case Cleanup(now) => [now]
    case _ => []
  }

  ghost predicate ClockMonotone(es: seq<Event>) {
    && (forall k, a, b | 0 <= k < |es| && 0 <= a < b < |Times(es[k])| :: Times(es[k])[a] <= Times(es[k])[b])
    && (forall j, k, a, b | 0 <= j < k < |es| && 0 <= a < |Times(es[j])| && 0 <= b < |Times(es[k])| ::
          Times(es[j])[a] <= Times(es[k])[b])
  }

  /** No stored log carries a time later than any reading still to come. */
  ghost predicate StoredBefore(ps: seq<Parked>, es: seq<Event>, k: nat) {
    forall i, j, b | 0 <= i < |ps| && k <= j < |es| && 0 <= b < |Times(es[j])| :: ps[i].storedAt <= Times(es[j])[b]
  }

  /** The memory after an event: emptied, cleaned, unchanged, or grown by stamped logs and cut at the cap. */
  lemma MemoryAfter(s: Pipeline, e: Event, cfg: Config)
    requires Enabled(s, e)
    ensures var m := Next(s, e, cfg).memory;
            || m == s.memory || m == []
            || (e.Cleanup? && m == Keep(s.memory, e.now, cfg.maxAge))
            || (e.SaveErr? &&
                var all := s.memory + Stamp(Saving(s.flights[e.i]), e.stamps);
                m == all[Excess(|all|, cfg.maxSize)..])
  {
    hide Retries, Transient, Logs, Stamp, Losses, Replace, Keep, Expired;
  }

  lemma SuffixSorted(ps: seq<Parked>, over: nat, es: seq<Event>, k: nat)
    requires ByStoreTime(ps) && over <= |ps| && StoredBefore(ps, es, k)
    ensures ByStoreTime(ps[over..]) && StoredBefore(ps[over..], es, k)
  {
  }

  lemma StampedSorted(ps: seq<Parked>, es: seq<Event>, k: nat, logs: seq<Log>)
    requires ClockMonotone(es) && k < |es| && es[k].SaveErr? && |logs| == |es[k].stamps|
    requires ByStoreTime(ps) && StoredBefore(ps, es, k)
    ensures ByStoreTime(ps + Stamp(logs, es[k].stamps)) && StoredBefore(ps + Stamp(logs, es[k].stamps), es, k + 1)
  {
    assert Times(es[k]) == es[k].stamps;
    forall i | 0 <= i < |ps| && es[k].stamps != [] ensures ps[i].storedAt <= es[k].stamps[0] {
      assert ps[i].storedAt <= Times(es[k])[0];
    }
  }

  lemma KeepSorted(ps: seq<Parked>, es: seq<Event>, k: nat, now: int, maxAge: int)
    requires ByStoreTime(ps) && StoredBefore(ps, es, k)
    ensures ByStoreTime(Keep(ps, now, maxAge)) && StoredBefore(Keep(ps, now, maxAge), es, k + 1)
  {
    SortedRemovesPrefix(ps, now, maxAge);
  }

  lemma MemoryStep(s: Pipeline, es: seq<Event>, cfg: Config, k: nat)
    requires ClockMonotone(es) && k < |es| && Enabled(s, es[k])
    requires ByStoreTime(s.memory) && StoredBefore(s.memory, es, k)
    ensures ByStoreTime(Next(s, es[k], cfg).memory) && StoredBefore(Next(s, es[k], cfg).memory, es, k + 1)
  {
    hide *;
    MemoryAfter(s, es[k], cfg);
    EmptyInOrder(s.memory, es, k + 1);
    if es[k].Cleanup? {
      KeepSorted(s.memory, es, k, es[k].now, cfg.maxAge);
    } else if es[k].SaveErr? {
      StampsFit(s, es[k]);
      StampedSorted(s.memory, es, k, Saving(s.flights[es[k].i]));
      var all := s.memory + Stamp(Saving(s.flights[es[k].i]), es[k].stamps);
      SuffixSorted(all, Excess(|all|, cfg.maxSize), es, k + 1);
    }
  }

  lemma StampsFit(s: Pipeline, e: Event)
    requires e.SaveErr? && Enabled(s, e)
    ensures e.i < |s.flights| && |Saving(s.flights[e.i])| == |e.stamps|
    ensures forall n, cap :: Excess(n, cap) <= n
  {
  }

  lemma {:induction false} MemoryInOrder(ss: seq<Pipeline>, es: seq<Event>, cfg: Config, k: nat)
    requires IsRun(ss, es, cfg) && ClockMonotone(es) && k < |ss|
    ensures ByStoreTime(ss[k].memory) && StoredBefore(ss[k].memory, es, k)
  {
    if k == 0 {
    } else {
      hide Next, ByStoreTime, ClockMonotone, StoredBefore;
      MemoryInOrder(ss, es, cfg, k - 1);
      MemoryStep(ss[k - 1], es, cfg, k - 1);
    }
  }

  lemma EmptyInOrder(ps: seq<Parked>, es: seq<Event>, k: nat)
    ensures ByStoreTime([]) && StoredBefore([], es, k)
    ensures k > 0 && StoredBefore(ps, es, k - 1) ==> StoredBefore(ps, es, k)
  {
  }

  /**
   With a monotone clock the store never exceeds its cap and stays in storage order through
   flushes, failed write-backs and re-storing, so age cleanup always removes exactly a prefix.
   */
  lemma StoreStaysFifo(ss: seq<Pipeline>, es: seq<Event>, cfg: Config, k: nat, now: int)
    requires IsRun(ss, es, cfg) && ClockMonotone(es) && k < |ss|
    ensures |ss[k].memory| <= cfg.maxSize && ByStoreTime(ss[k].memory) && RemovesPrefix(ss[k].memory, now, cfg.maxAge)
  {
    RunSound(ss, es, cfg, k);
    MemoryInOrder(ss, es, cfg, k);
    SortedRemovesPrefix(ss[k].memory, now, cfg.maxAge);
  }

  // ---- Shutdown ----

  /** The events of a shutdown nothing disturbs: saves succeed in the end, and no log arrives. */
  ghost predicate Undisturbed(s: Pipeline, e: Event)
    requires Enabled(s, e)
  {
    e.SaveOk? || e.Resume? || e.Cleanup? || (e.SaveErr? && Retries(s.flights[e.i], e.error))
  }

  /** A run that starts with `stopBatchProcessor` while no flight is open. */
  ghost predicate StopRun(ss: seq<Pipeline>, es: seq<Event>, cfg: Config) {
    && |ss| == |es| + 1 && |es| > 0 && ss[0].flights == [] && es[0] == Stop
    && (forall k | 0 <= k < |es| :: Enabled(ss[k], es[k]) && ss[k + 1] == Next(ss[k], es[k], cfg))
    && (forall k | 1 <= k < |es| :: Undisturbed(ss[k], es[k]))
  }

  /** The only flight is that of the shutdown, and it holds all there is to save. */
  ghost predicate ShuttingDown(s: Pipeline) {
    && s.queue == [] && s.memory == [] && !s.batchTimer && |s.flights| <= 1
    && (s.flights == [] ==> !s.cleanupTimer)
    && (s.flights != [] && (s.flights[0].SavingMemory? || s.flights[0].SavingBatch?) ==> s.flights[0].stopping)
  }

  lemma StopBegins(s: Pipeline, cfg: Config)
    requires s.flights == []
    ensures ShuttingDown(Next(s, Stop, cfg)) && Next(s, Stop, cfg).lost == s.lost
  {
  }

  lemma StopContinues(s: Pipeline, e: Event, cfg: Config)
    requires Enabled(s, e) && ShuttingDown(s) && Undisturbed(s, e)
    ensures ShuttingDown(Next(s, e, cfg)) && Next(s, e, cfg).lost == s.lost
  {
    hide Retries, Transient;
    if e.SaveOk? {
      assert Replace(s.flights, 0, Heirs(s.flights[0], true)) == Heirs(s.flights[0], true);
    } else if e.Cleanup? {
      assert Logs([]) == [] && Losses([], AgeExpiry) == [];
      assert s.lost + [] == s.lost;
    }
  }

  lemma {:induction false} StopProgress(ss: seq<Pipeline>, es: seq<Event>, cfg: Config, k: nat)
    requires StopRun(ss, es, cfg) && Sound(ss[0], cfg) && 1 <= k < |ss|
    ensures ShuttingDown(ss[k]) && ss[k].lost == ss[0].lost && Sound(ss[k], cfg)
  {
    hide Next, Sound, ShuttingDown;
    if k == 1 {
      StopBegins(ss[0], cfg);
    } else {
      StopProgress(ss, es, cfg, k - 1);
      StopContinues(ss[k - 1], es[k - 1], cfg);
      assert Sound(ss[k - 1], cfg);
    }
    if k == 1 {
      NextSound(ss[0], Stop, cfg);
    } else {
      NextSound(ss[k - 1], es[k - 1], cfg);
    }
  }

  // ---- The shutdown finishes ----

  /** The retries a save has left. */
  function RetriesLeft(errors: seq<Error>): nat {
    if |errors| < DATABASE_OPTIONS.maxRetries then DATABASE_OPTIONS.maxRetries - |errors| else 0
  }

  /** The most steps a flight of the shutdown can still take. */
  function StepsLeft(f: Flight): nat {
    match f
    case SavingMemory(_, _, errors, _) => RetriesLeft(errors) + 3 + DATABASE_OPTIONS.maxRetries
    case SavingBatch(_, errors, _, _) => RetriesLeft(errors) + 2
    case Draining(_, errors) => RetriesLeft(errors) + 1
    case Resuming => 1
  }

  function Remaining(s: Pipeline): nat {
    if s.flights == [] then 0 else StepsLeft(s.flights[0])
  }

  /** How many events are not timer cleanups. */
  function Steps(es: seq<Event>): nat {
    if es == [] then 0 else Steps(es[..|es| - 1]) + (if es[|es| - 1].Cleanup? then 0 else 1)
  }

  lemma ShutdownProgress(s: Pipeline, e: Event, cfg: Config)
    requires Enabled(s, e) && ShuttingDown(s) && Undisturbed(s, e)
    ensures Remaining(Next(s, e, cfg)) + (if e.Cleanup? then 0 else 1) <= Remaining(s)
  {
    hide Retryable, Transient, Logs, Losses, Keep, Expired;
    if e.SaveOk? {
      assert Replace(s.flights, 0, Heirs(s.flights[0], true)) == Heirs(s.flights[0], true);
    }
  }

  /** While a flight of the shutdown is open, saving it or resuming the shutdown is possible. */
  lemma ShutdownNotStuck(s: Pipeline) returns (e: Event)
    requires ShuttingDown(s) && s.flights != []
    ensures Enabled(s, e) && Undisturbed(s, e) && !e.Cleanup?
  {
    e := if s.flights[0].Resuming? then Resume(0) else SaveOk(0);
  }

  lemma StopBeginsShort(s: Pipeline, cfg: Config)
    requires s.flights == []
    ensures Remaining(Next(s, Stop, cfg)) <= 9
  {
  }

  /**
   An undisturbed shutdown takes at most ten steps beside timer cleanups, its own first one
   included, and until its last flight has landed a next step is possible.
   */
  lemma {:induction false} StopFinishes(ss: seq<Pipeline>, es: seq<Event>, cfg: Config, k: nat)
    requires StopRun(ss, es, cfg) && Sound(ss[0], cfg) && 1 <= k < |ss|
    ensures Steps(es[..k]) + Remaining(ss[k]) <= 10
    ensures ss[k].flights != [] ==> exists e :: Enabled(ss[k], e) && Undisturbed(ss[k], e) && !e.Cleanup?
  {
    hide Next, Sound, ShuttingDown, StepsLeft, Remaining, Undisturbed;
    StopProgress(ss, es, cfg, k);
    assert es[..k][..k - 1] == es[..k - 1];
    if k == 1 {
      StopBeginsShort(ss[0], cfg);
      assert es[..0] == [];
    } else {
      StopFinishes(ss, es, cfg, k - 1);
      StopProgress(ss, es, cfg, k - 1);
      ShutdownProgress(ss[k - 1], es[k - 1], cfg);
    }
    if ss[k].flights != [] {
      var e := ShutdownNotStuck(ss[k]);
    }
  }

  /**
   When the shutdown has finished, queue and memory are empty, both timers are off, nothing was
   lost on the way, and the database holds every accepted log that is not in the ledger.
   */
  lemma StopLeavesNothing(ss: seq<Pipeline>, es: seq<Event>, cfg: Config, x: Log)
    requires StopRun(ss, es, cfg) && Sound(ss[0], cfg) && ss[|es|].flights == []
    ensures var end := ss[|es|];
            && end.queue == [] && end.memory == [] && !end.batchTimer && !end.cleanupTimer
            && end.lost == ss[0].lost
            && Count(end.database, x) == Count(end.accepted, x) - Count(LostLogs(end.lost), x)
  {
    StopProgress(ss, es, cfg, |es|);
    assert Copies(ss[|es|], x) == Count(ss[|es|].accepted, x);
    assert Logs([]) == [];
  }
}
