/** The HTTP middleware in front of the rate limiter, and what its Retry-After header is worth. */
module RateLimitMiddleware {
  import opened KeyExpiry
  import opened LuaLimiter
  import opened MemoryLimiter
  import opened Optional
  import opened RateLimiterRuns
  import opened RateLimiterService

  /** The client the authentication middleware attached; `rateLimit` may be absent or zero. */
  datatype Client = Client(clientId: string, rateLimit: Option<int>)

  datatype Header = Number(value: int) | Instant(millis: int) | Seconds(count: int)

  /** The JSON of a 429 response, its fixed texts left out. */
  datatype Refusal = Refusal(limit: int, current: int, resetAt: int, retryAfter: int)

  class Response {
    var headers: map<string, Header>
    var status: int
    var body: Option<Refusal>

    constructor ()
      ensures headers == map[] && status == 200 && body == None
    {
      headers, status, body := map[], 200, None;
    }
  }

  /** Math.ceil((resetAt - now) / 1000). */
  function RetryAfter(resetAt: int, now: int): (seconds: int)
    ensures resetAt <= now + 1000 * seconds < resetAt + 1000
  {
    -((now - resetAt) / 1000)
  }

  const LIMIT_HEADERS: set<string> :=
    {"X-RateLimit-Limit", "X-RateLimit-Remaining", "X-RateLimit-Reset", "X-RateLimit-Window"}

  /** The headers of an answered check beside those it does not set. */
  ghost predicate TellsLimits(headers: map<string, Header>, limit: int, d: Decision, window: int) {
    && LIMIT_HEADERS <= headers.Keys
    && headers["X-RateLimit-Limit"] == Number(limit) && headers["X-RateLimit-Remaining"] == Number(d.remaining)
    && headers["X-RateLimit-Reset"] == Instant(d.resetAt) && headers["X-RateLimit-Window"] == Seconds(window)
  }

  /** Headers not among `names` are as before. */
  ghost predicate OthersKept(before: map<string, Header>, after: map<string, Header>, names: set<string>) {
    forall h | h !in names :: (h in after <==> h in before) && (h in after ==> after[h] == before[h])
  }

  lemma LimitsTold(before: map<string, Header>, limit: int, d: Decision, window: int)
    ensures var after := before["X-RateLimit-Limit" := Number(limit)]["X-RateLimit-Remaining" := Number(d.remaining)]
                               ["X-RateLimit-Reset" := Instant(d.resetAt)]["X-RateLimit-Window" := Seconds(window)];
            TellsLimits(after, limit, d, window) && OthersKept(before, after, LIMIT_HEADERS)
  {
  }

  lemma RetryTold(before: map<string, Header>, told: map<string, Header>, limit: int, d: Decision, window: int,
                  value: Header)
    requires TellsLimits(told, limit, d, window) && OthersKept(before, told, LIMIT_HEADERS)
    ensures var after := told["Retry-After" := value];
            TellsLimits(after, limit, d, window) && OthersKept(before, after, LIMIT_HEADERS + {"Retry-After"})
  {
  }

  predicate Authenticated(client: Option<Client>) {
    client.Some? && client.value.clientId != ""
  }

  /** Without a client nothing is limited; `next` says whether the request proceeds. */
  method Limit(client: Option<Client>, service: RateLimiter, response: Response,
               now: int, nonce: nat, link: Link, at: int, fallbackNow: int, answeredAt: int)
    returns (next: bool)
    modifies service, service.redis, response
    ensures client == None || client.value.clientId == "" ==>
              && next && service.State() == old(service.State()) && response.headers == old(response.headers)
              && response.status == old(response.status) && response.body == old(response.body)
    ensures client.Some? && client.value.clientId != "" ==>
              var c := client.value;
              var limit := if c.rateLimit.Some? && c.rateLimit.value != 0 then c.rateLimit.value
                           else service.maxRequests;
              var (after, decision) := Handle(old(service.State()),
                Request(c.clientId, None, Some(limit), now, nonce, link, at, fallbackNow), service.Cfg());
              && service.State() == after
              && (next <==> decision.allowed)
              && TellsLimits(response.headers, limit, decision, service.windowSize)
              && if next then
                   && response.status == old(response.status) && response.body == old(response.body)
                   && OthersKept(old(response.headers), response.headers, LIMIT_HEADERS)
                 else
                   var retryAfter := RetryAfter(decision.resetAt, answeredAt);
                   && response.status == 429
                   && response.body == Some(Refusal(limit, decision.current, decision.resetAt, retryAfter))
                   && "Retry-After" in response.headers && response.headers["Retry-After"] == Number(retryAfter)
                   && OthersKept(old(response.headers), response.headers, LIMIT_HEADERS + {"Retry-After"})
  {
    hide Handle, RetryAfter, TellsLimits, OthersKept, RedisKey;
    if !Authenticated(client) {
      return true;
    }
    var clientRateLimit := EffectiveLimit(client.value.rateLimit, service.maxRequests);
    var clientId := client.value.clientId;
    var result := service.CheckRateLimit(clientId, Some(clientRateLimit), now, nonce, link, at, fallbackNow);
    response.headers := response.headers["X-RateLimit-Limit" := Number(clientRateLimit)];
    response.headers := response.headers["X-RateLimit-Remaining" := Number(result.remaining)];
    response.headers := response.headers["X-RateLimit-Reset" := Instant(result.resetAt)];
    response.headers := response.headers["X-RateLimit-Window" := Seconds(service.windowSize)];
    LimitsTold(old(response.headers), clientRateLimit, result, service.windowSize);
    if !result.allowed {
      var retryAfter := RetryAfter(result.resetAt, answeredAt);
      RetryTold(old(response.headers), response.headers, clientRateLimit, result, service.windowSize,
                Number(retryAfter));
      response.headers := response.headers["Retry-After" := Number(retryAfter)];
      response.status := 429;
      response.body := Some(Refusal(clientRateLimit, result.current, result.resetAt, retryAfter));
      return false;
    }
    return true;
  }

  /**
   A client denied by call `i` that stays away for the Retry-After it was given is admitted
   when it returns with call `j`, unless some other call reached the reset time first.
   */
  lemma PatientClientAdmitted(calls: seq<Call>, at: seq<int>, window: int, ahead: int, behind: int,
                              limit: int, i: nat, j: nat, answeredAt: int)
    requires ahead + behind <= 60001 && ClocksWithin(calls, at, ahead, behind)
    requires FixedLimit(calls, limit) && limit >= 1
    requires i < j < |calls| && calls[i].ran && calls[j].ran && !ExpiringReplyAt(calls, at, window, i).allowed
    requires forall m | i < m < j && calls[m].ran ::
               calls[m].now < ExpiringReplyAt(calls, at, window, i).resetTime
    requires calls[j].now >=
             answeredAt + 1000 * RetryAfter(ExpiringReplyAt(calls, at, window, i).resetTime, answeredAt)
    ensures ExpiringReplyAt(calls, at, window, j).allowed
  {
    hide ExpiringReplyAt;
    var r := ExpiringReplyAt(calls, at, window, i).resetTime;
    ExpiringDenialIsExact(calls, at, window, ahead, behind, limit, i, j, r);
  }

  /** The same for a client that memory denied in step `i` of a run of the service, and checks again in step `j`. */
  lemma PatientClientAdmittedByMemory(rs: seq<Step>, cfg: Config, c: string, i: nat, j: nat, answeredAt: int)
    requires FallbackClock(rs) && cfg.max >= 1 && i < j < |rs| && FallsBack(rs[i], c) && FallsBack(rs[j], c)
    requires !AnswerAt(rs, cfg, i).allowed && QuietUntil(rs, c, i, j, AnswerAt(rs, cfg, i).resetAt)
    requires rs[j].fallbackNow >= answeredAt + 1000 * RetryAfter(AnswerAt(rs, cfg, i).resetAt, answeredAt)
    ensures AnswerAt(rs, cfg, j).allowed
  {
    hide AnswerAt, QuietUntil, FallbackClock;
    MemoryDenialIsExact(rs, cfg, c, i, j);
  }
}
