/**
 The usage service as an object. Each method is one synchronous stretch of a reader or
 pre-warmer; `tasks` holds the computations that wait for a database answer.
 */
module ClientService {
  import opened CacheKeys
  import opened UsageRows
  import opened UsageCache

  class Usage {
    const world: World
    const ttlDaily: Seconds
    const ttlTop: Seconds
    var cache: map<string, Entry>
    var tasks: seq<Task>
    var answers: seq<Answer>
    var accesses: seq<(Params, bool)>

    constructor (world: World, ttlDaily: Seconds, ttlTop: Seconds)
      ensures State() == Service(map[], [], [], []) && this.world == world && Cfg() == Config(ttlDaily, ttlTop)
    {
      this.world, this.ttlDaily, this.ttlTop := world, ttlDaily, ttlTop;
      cache, tasks, answers, accesses := map[], [], [], [];
    }

    function Cfg(): Config {
      Config(ttlDaily, ttlTop)
    }

    function State(): Service
      reads this
    {
      Service(cache, tasks, answers, accesses)
    }

    /** `getDailyUsage` and `getTopClients` up to the first query, or to the answer on a hit. */
    method GetUsage(p: Params, now: int, cacheUp: bool, tracked: bool)
      modifies this
      ensures State() == Next(old(State()), Read(p, now, cacheUp, tracked), world, Cfg())
    {
      var cacheKey := PrintKey(p);
      if cacheUp && cacheKey in cache && now <= cache[cacheKey].expiresAt {
        var cached := cache[cacheKey].rows;
        if |cached| > 0 {
          TrackAccess(p, true, tracked);
          answers := answers + [Hit(p, now, cached)];
          return;
        }
      }
      TrackAccess(p, false, tracked);
      tasks := tasks + [Task(p, false, [], [], [])];
    }

    /** Nobody waits for the counter, and a failure to reach it is swallowed. */
    method TrackAccess(p: Params, isHit: bool, tracked: bool)
      modifies this`accesses
      ensures accesses == old(accesses) + Counted(tracked, p, isHit)
    {
      if tracked {
        accesses := accesses + [(p, isHit)];
      }
    }

    /** `prewarmDailyUsage` and `prewarmTopClients`, which skip the cache read. */
    method PrewarmUsage(p: Params)
      modifies this`tasks
      ensures State() == Next(old(State()), Prewarm(p), world, Cfg())
    {
      tasks := tasks + [Task(p, true, [], [], [])];
    }

    /** The database answered the query task `i` was waiting for. */
    method QueryReturned(i: nat, now: int)
      requires i < |tasks| && !Done(tasks[i])
      modifies this`tasks
      ensures State() == Next(old(State()), Query(i, now), world, Cfg())
    {
      var t := tasks[i];
      match t.p {
        case Daily(days) =>
          if |t.times| == 0 {
            t := t.(times := [now], clients := world.clients(now));
          } else {
            var clientUsage := world.daily(now, t.clients[|t.times| - 1], days);
            t := t.(times := t.times + [now], rows := t.rows + clientUsage);
          }
        case Top(hours, limit) =>
          t := t.(times := [now], rows := world.top(now, hours, limit));
      }
      tasks := tasks[i := t];
    }

    method QueryFailed(i: nat)
      requires i < |tasks| && !Done(tasks[i])
      modifies this
      ensures State() == Next(old(State()), QueryFails(i), world, Cfg())
    {
      if !tasks[i].prewarm {
        answers := answers + [Failure(tasks[i].p)];
      }
      tasks := tasks[..i] + tasks[i + 1..];
    }

    /** After the last query: sort, write the cache unless the report is empty, answer. */
    method FinishUsage(i: nat, now: int, cacheUp: bool)
      requires i < |tasks| && Done(tasks[i])
      modifies this
      ensures State() == Next(old(State()), Finish(i, now, cacheUp), world, Cfg())
    {
      hide SortRows, PrintKey, Done;
      var t := tasks[i];
      var result := if t.p.Daily? then SortRows(t.rows) else t.rows;
      if |result| > 0 && cacheUp {
        var ttl := if t.p.Daily? then ttlDaily else ttlTop;
        cache := cache[PrintKey(t.p) := Entry(result, now + 1000 * ttl, t)];
      }
      if !t.prewarm {
        answers := answers + [Computed(t.p, result)];
      }
      tasks := tasks[..i] + tasks[i + 1..];
    }

    /** `prewarmByCacheKey`: a key of neither form, or with a parameter that is no number, starts nothing. */
    method PrewarmByCacheKey(cacheKey: string)
      modifies this`tasks
      ensures State() == match Refreshed(cacheKey)
                         case None => old(State())
                         case Some(p) => Next(old(State()), Prewarm(p), world, Cfg())
    {
      if DAILY_PREFIX <= cacheKey {
        var days := ParseInt(RemoveFirst(cacheKey, DAILY_PREFIX));
        if days != NaN {
          PrewarmUsage(Daily(days));
        }
      } else if TOP_PREFIX <= cacheKey {
        var parts := Split(RemoveFirst(cacheKey, TOP_PREFIX));
        if |parts| == 2 {
          var hours, limit := ParseInt(parts[0]), ParseInt(parts[1]);
          if hours != NaN && limit != NaN {
            PrewarmUsage(Top(hours, limit));
          }
        }
      }
    }
  }
}
