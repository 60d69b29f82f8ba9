/**
 The repository and its parking store as objects. Each method is one synchronous stretch; the
 calls it leaves waiting for the database are kept in `flights`.
 */
module ApiLogRepository {
  import opened LogStorage
  import opened Retry
  import opened LogPipeline

  class Repository {
    const batchSize: int
    const storage: InMemoryLogStorage
    var batchQueue: seq<Log>
    var batchTimer: bool
    var flights: seq<Flight>
    var database: seq<Log>
    var received: nat
    ghost var accepted: seq<Log>

    constructor (batchSize: int, maxSize: nat, maxAgeMs: int)
      ensures Valid() && State() == INIT && Cfg() == Config(batchSize, maxSize, maxAgeMs)
      ensures fresh(storage)
    {
      this.batchSize := batchSize;
      storage := new InMemoryLogStorage(maxSize, maxAgeMs);
      batchQueue, batchTimer, flights, database, received, accepted := [], true, [], [], 0, [];
    }

    ghost predicate Valid()
      reads this, storage
    {
      |storage.logs| <= storage.maxSize && received == |accepted|
    }

    function Cfg(): Config {
      Config(batchSize, storage.maxSize, storage.maxAgeMs)
    }

    ghost function State(): Pipeline
      reads this, storage
    {
      Pipeline(batchQueue, storage.logs, flights, database, storage.lost, accepted, batchTimer, storage.cleanupTimer)
    }

    method AddToBatch(clientId: string, endpoint: string, statusCode: int)
      requires Valid()
      modifies this, storage
      ensures Valid() && State() == Next(old(State()), Add(clientId, endpoint, statusCode), Cfg())
    {
      var log := Log(received, clientId, endpoint, statusCode);
      batchQueue := batchQueue + [log];
      received, accepted := received + 1, accepted + [log];
      if |batchQueue| >= batchSize {
        FlushBatch(false);
      }
    }

    method OnBatchTimer()
      requires Valid() && batchTimer
      modifies this, storage
      ensures Valid() && State() == Next(old(State()), Tick, Cfg())
    {
      if |batchQueue| > 0 {
        FlushBatch(false);
      }
    }

    /**
     Up to its first await: everything parked is taken and waits to be saved, in a flight the
     caller says how to go on with; without parked logs the call returns at once.
     */
    method FlushInMemoryLogs(waiting: seq<Log> -> Flight)
      modifies this`flights, storage`logs
      ensures storage.logs == []
      ensures flights == old(flights) + (if old(storage.logs) == [] then [] else [waiting(Logs(old(storage.logs)))])
    {
      var inMemoryLogs := storage.Flush();
      if |inMemoryLogs| == 0 {
        return;
      }
      flights := flights + [waiting(inMemoryLogs)];
    }

    /** Up to its first await: the batch is cut off, and parked logs, if any, are saved first. */
    method FlushBatch(stopping: bool)
      requires Valid()
      modifies this`batchQueue, this`flights, storage`logs
      ensures Valid() && State() == if old(batchQueue) == [] then old(State()) else TakeQueue(old(State()), stopping)
    {
      if |batchQueue| == 0 {
        return;
      }
      var logsToInsert := batchQueue;
      batchQueue := [];
      if !storage.IsEmpty() {
        FlushInMemoryLogs(parked => SavingMemory(parked, logsToInsert, [], stopping));
      } else {
        flights := flights + [SavingBatch(logsToInsert, [], false, stopping)];
      }
    }

    method StopBatchProcessor()
      requires Valid()
      modifies this, storage
      ensures Valid() && State() == Next(old(State()), Stop, Cfg())
    {
      batchTimer := false;
      if |batchQueue| > 0 {
        FlushBatch(true);
      } else {
        FinishStop();
      }
    }

    /** `stopBatchProcessor` after its flush. */
    method ResumeStop(i: nat)
      requires Valid() && i < |flights| && flights[i].Resuming?
      modifies this, storage
      ensures Valid() && State() == Next(old(State()), Resume(i), Cfg())
    {
      flights := flights[..i] + [] + flights[i + 1..];
      FinishStop();
    }

    /** `stopBatchProcessor` once the queue is flushed: write back what is parked, or stop the store. */
    method FinishStop()
      requires Valid()
      modifies this`flights, storage`logs, storage`cleanupTimer
      ensures Valid() && State() == Drain(old(State()))
    {
      if !storage.IsEmpty() {
        FlushInMemoryLogs(parked => Draining(parked, []));
      } else {
        storage.Stop();
      }
    }

    /** The save of flight `i` committed. */
    method SaveSucceeded(i: nat)
      requires Valid() && i < |flights| && !flights[i].Resuming?
      modifies this, storage
      ensures Valid() && State() == Next(old(State()), SaveOk(i), Cfg())
    {
      var f := flights[i];
      database := database + Saving(f);
      match f {
        case SavingMemory(_, batch, _, stopping) => Land(i, [SavingBatch(batch, [], false, stopping)]);
        case SavingBatch(_, _, _, stopping) => Land(i, Rest(stopping));
        case Draining(_, _) =>
          Land(i, []);
          storage.Stop();
      }
    }

    /** An attempt to save flight `i` threw `error`; logs parked because of it are stamped in turn. */
    method SaveFailed(i: nat, error: Error, stamps: seq<int>)
      requires Valid() && i < |flights| && !flights[i].Resuming? && |stamps| == |Saving(flights[i])|
      modifies this, storage
      ensures Valid() && State() == Next(old(State()), SaveErr(i, error, stamps), Cfg())
    {
      hide RetriesAfter, Transient, Losses, Stamp, Logs, Excess;
      var f := flights[i];
      if RetriesAfter(DATABASE_OPTIONS, |f.errors| + 1, error) {
        Land(i, [f.(errors := f.errors + [error])]);
        return;
      }
      match f {
        case SavingMemory(parked, batch, _, stopping) =>
          Land(i, [SavingBatch(batch, [], true, stopping)]);
          storage.AddAll(parked, stamps);
        case SavingBatch(batch, _, _, stopping) =>
          Land(i, Rest(stopping));
          if Transient(error) {
            storage.AddAll(batch, stamps);
          } else if |batchQueue| < QUEUE_LIMIT {
            batchQueue := batch + batchQueue;
          } else {
            storage.lost := storage.lost + Losses(batch, QueueFull);
          }
        case Draining(parked, _) =>
          Land(i, []);
          storage.AddAll(parked, stamps);
          storage.Stop();
      }
    }

    method Land(i: nat, heirs: seq<Flight>)
      requires i < |flights|
      modifies this`flights
      ensures flights == Replace(old(flights), i, heirs)
    {
      flights := flights[..i] + heirs + flights[i + 1..];
    }

    method OnCleanupTimer(now: int)
      requires Valid() && storage.cleanupTimer
      modifies storage
      ensures Valid() && State() == Next(old(State()), Cleanup(now), Cfg())
    {
      storage.CleanupOldLogs(now);
    }

    method ClearStorage()
      requires Valid()
      modifies storage
      ensures Valid() && State() == Next(old(State()), Clear, Cfg())
    {
      storage.Clear();
    }
  }
}
