/** The rate-limiter service and the Redis it talks to, as objects; every call refines `RateLimiterRuns.Handle`. */
module RateLimiterService {
  import opened Timestamps
  import opened LuaLimiter
  import opened KeyExpiry
  import opened MemoryLimiter
  import opened Optional
  import opened RateLimiterRuns

  /** Redis as far as the limiter uses it: sorted sets by key, each with its deadline. */
  class RedisStore {
    var keys: map<string, Key>

    constructor ()
      ensures keys == map[]
    {
      keys := map[];
    }

    /** The script at Redis time `at`, command by command. */
    method EvalScript(key: string, now: int, window: int, limit: int, nonce: nat, at: int) returns (reply: Reply)
      modifies this
      ensures var (after, expected) := EvalExpiring(KeyIn(old(keys), key), Call(now, limit, nonce, true), window, at);
              keys == old(keys)[key := after] && reply == expected
    {
      hide OldestScore, Prune, KeyIn;
      var windowStart := now - window * 1000;
      var stored := KeyIn(keys, key);
      var members := if at > stored.expiresAt then {} else stored.members;
      members := Prune(members, windowStart);
      keys := keys[key := Key(members, stored.expiresAt)];
      var current := |members|;
      if current >= limit {
        var resetTime := now;
        if members != {} {
          resetTime := OldestScore(members) + window * 1000;
        }
        reply := Reply(false, current, resetTime);
      } else {
        members := members + {Entry(now, nonce)};
        keys := keys[key := Key(members, stored.expiresAt)];
        keys := keys[key := Key(members, at + (window + 60) * 1000)];
        reply := Reply(true, current + 1, now + window * 1000);
      }
      assert keys == old(keys)[key := keys[key]];
    }

    method Delete(key: string)
      modifies this
      ensures keys == old(keys) - {key}
    {
      keys := keys - {key};
    }
  }

  class RateLimiter {
    const windowSize: int
    const maxRequests: int
    const redis: RedisStore
    var inMemoryStore: map<string, seq<int>>

    constructor (maxRequests: int, windowSize: int, redis: RedisStore)
      ensures this.maxRequests == maxRequests && this.windowSize == windowSize && this.redis == redis
      ensures inMemoryStore == map[]
    {
      this.maxRequests, this.windowSize, this.redis := maxRequests, windowSize, redis;
      inMemoryStore := map[];
    }

    function Cfg(): Config {
      Config(windowSize, maxRequests)
    }

    ghost function State(): Service
      reads this, redis
    {
      Service(redis.keys, inMemoryStore)
    }

    /** `link` says whether Redis answers, and if not, whether the script took effect. */
    method CheckRateLimit(clientId: string, maxRequests: Option<int>,
                          now: int, nonce: nat, link: Link, at: int, fallbackNow: int)
      returns (decision: Decision)
      modifies this, redis
      ensures (State(), decision) == Handle(old(State()),
                Request(clientId, None, maxRequests, now, nonce, link, at, fallbackNow), Cfg())
    {
      decision := Limit(clientId, None, maxRequests, now, nonce, link, at, fallbackNow);
    }

    method CheckRateLimitForEndpoint(clientId: string, endpoint: string, maxRequests: Option<int>,
                                     now: int, nonce: nat, link: Link, at: int, fallbackNow: int)
      returns (decision: Decision)
      modifies this, redis
      ensures (State(), decision) == Handle(old(State()),
                Request(clientId, Some(endpoint), maxRequests, now, nonce, link, at, fallbackNow), Cfg())
    {
      decision := Limit(clientId, Some(endpoint), maxRequests, now, nonce, link, at, fallbackNow);
    }

    /** The body that the two checks share but for their key. */
    method Limit(clientId: string, endpoint: Option<string>, maxRequests: Option<int>,
                 now: int, nonce: nat, link: Link, at: int, fallbackNow: int)
      returns (decision: Decision)
      modifies this, redis
      ensures (State(), decision) == Handle(old(State()),
                Request(clientId, endpoint, maxRequests, now, nonce, link, at, fallbackNow), Cfg())
    {
      var key := RedisKey(clientId, endpoint);
      var limit := EffectiveLimit(maxRequests, this.maxRequests);
      if link == Answered {
        var reply := redis.EvalScript(key, now, windowSize, limit, nonce, at);
        if !reply.allowed {
          decision := Decision(false, 0, reply.resetTime, reply.current);
        } else {
          decision := Decision(true, limit - reply.current, reply.resetTime, reply.current);
        }
      } else {
        if link == LostAfter {
          var _ := redis.EvalScript(key, now, windowSize, limit, nonce, at);
        }
        decision := CheckRateLimitInMemory(clientId, fallbackNow);
      }
    }

    method CheckRateLimitInMemory(clientId: string, now: int) returns (decision: Decision)
      modifies this`inMemoryStore
      ensures var (ts, expected) := Check(Get(old(inMemoryStore), clientId), now, windowSize, maxRequests);
              inMemoryStore == old(inMemoryStore)[clientId := ts] && decision == expected
    {
      var windowStart := now - windowSize * 1000;
      if clientId !in inMemoryStore {
        inMemoryStore := inMemoryStore[clientId := []];
      }
      inMemoryStore := inMemoryStore[clientId := After(inMemoryStore[clientId], windowStart)];
      var timestamps := inMemoryStore[clientId];
      var currentCount := |timestamps|;
      if currentCount >= maxRequests {
        var oldest := if timestamps != [] && timestamps[0] != 0 then timestamps[0] else now;
        return Decision(false, 0, oldest + windowSize * 1000, currentCount);
      }
      inMemoryStore := inMemoryStore[clientId := timestamps + [now]];
      decision := Decision(true, maxRequests - currentCount - 1, now + windowSize * 1000, currentCount + 1);
    }

    /** Visits every client once, pruning its list and deleting it when nothing is left. */
    method CleanupInMemoryStore(now: int)
      modifies this`inMemoryStore
      ensures inMemoryStore == CleanStore(old(inMemoryStore), now - Millis(windowSize))
    {
      hide After;
      var windowStart := now - windowSize * 1000;
      var unvisited := inMemoryStore.Keys;
      while unvisited != {}
        invariant unvisited <= inMemoryStore.Keys <= old(inMemoryStore).Keys
        invariant forall c | c in unvisited :: inMemoryStore[c] == old(inMemoryStore)[c]
        invariant forall c | c in old(inMemoryStore) && c !in unvisited ::
                    if After(old(inMemoryStore)[c], windowStart) == [] then c !in inMemoryStore
                    else c in inMemoryStore && inMemoryStore[c] == After(old(inMemoryStore)[c], windowStart)
        decreases |unvisited|
      {
        var clientId :| clientId in unvisited;
        unvisited := unvisited - {clientId};
        inMemoryStore := inMemoryStore[clientId := After(inMemoryStore[clientId], windowStart)];
        if inMemoryStore[clientId] == [] {
          inMemoryStore := inMemoryStore - {clientId};
        }
      }
    }

    /** Clears the memory of a client whether or not Redis could delete its key. */
    method ResetRateLimit(clientId: string, redisUp: bool)
      modifies this, redis
      ensures inMemoryStore == old(inMemoryStore) - {clientId}
      ensures redis.keys == if redisUp then old(redis.keys) - {RedisKey(clientId, None)} else old(redis.keys)
    {
      if redisUp {
        redis.Delete(RedisKey(clientId, None));
      }
      inMemoryStore := inMemoryStore - {clientId};
    }
  }
}
