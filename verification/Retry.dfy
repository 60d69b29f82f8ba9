/** Retrying with exponential backoff, and which database errors count as transient. */
module Retry {

  datatype Error = Error(name: string, message: string)

  datatype Outcome<T> = Returned(value: T) | Threw(error: Error)

  /** `ThrewNothing` is `throw lastError` before any call was made. */
  datatype Result<T> = Done(value: T) | Failed(error: Error) | ThrewNothing

  datatype Options = Options(maxRetries: int, baseDelay: int, maxDelay: int, retryableErrors: seq<string>)

  // ---- Strings ----

  predicate Includes(s: string, sub: string) {
    exists i {:trigger s[i..]} :: 0 <= i <= |s| && sub <= s[i..]
  }

  function LowerChar(c: char): char {
    if 'A' <= c <= 'Z' then c + ('a' - 'A') else c
  }

  function ToLower(s: string): string {
    seq(|s|, i requires 0 <= i < |s| => LowerChar(s[i]))
  }

  /** Lower-casing both sides keeps every occurrence of a substring. */
  lemma IncludesLowered(s: string, sub: string)
    requires Includes(s, sub)
    ensures Includes(ToLower(s), ToLower(sub))
  {
    var i :| 0 <= i <= |s| && sub <= s[i..];
    assert ToLower(sub) <= ToLower(s)[i..] by {
      forall k | 0 <= k < |sub| ensures ToLower(sub)[k] == ToLower(s)[i..][k] {
        assert sub[k] == s[i..][k];
      }
    }
  }

  // ---- Error classes ----

  const RETRYABLE_ERRORS: seq<string> := [
    "ECONNREFUSED", "ETIMEDOUT", "ENOTFOUND", "EHOSTUNREACH", "connection timeout",
    "connection lost", "deadlock", "lock timeout", "QueryFailedError"]

  const TRANSIENT_ERRORS: seq<string> := [
    "ECONNREFUSED", "ETIMEDOUT", "ENOTFOUND", "EHOSTUNREACH", "connection timeout",
    "connection lost", "deadlock", "lock timeout", "too many connections", "QueryFailedError"]

  const DATABASE_OPTIONS := Options(3, 200, 5000, RETRYABLE_ERRORS)

  predicate Mentions(e: Error, pattern: string) {
    Includes(e.message, pattern) || Includes(e.name, pattern)
  }

  predicate MentionsAnyCase(e: Error, pattern: string) {
    Includes(ToLower(e.message), ToLower(pattern)) || Includes(ToLower(e.name), ToLower(pattern))
  }

  /** An empty pattern list makes every error retryable. */
  predicate Retryable(patterns: seq<string>, e: Error) {
    patterns == [] || exists p | p in patterns :: Mentions(e, p)
  }

  predicate Transient(e: Error) {
    exists p | p in TRANSIENT_ERRORS :: MentionsAnyCase(e, p)
  }

  lemma MentionsLowered(e: Error, pattern: string)
    requires Mentions(e, pattern)
    ensures MentionsAnyCase(e, pattern)
  {
    if Includes(e.message, pattern) {
      IncludesLowered(e.message, pattern);
    } else {
      IncludesLowered(e.name, pattern);
    }
  }

  /** The one transient error whose text no retry looks for. */
  const EXHAUSTED_POOL := "too many connections"

  lemma TransientPatterns(p: string)
    ensures p in TRANSIENT_ERRORS <==> p in RETRYABLE_ERRORS || p == EXHAUSTED_POOL
  {
    assert TRANSIENT_ERRORS == RETRYABLE_ERRORS[..8] + [EXHAUSTED_POOL] + RETRYABLE_ERRORS[8..];
    assert RETRYABLE_ERRORS == RETRYABLE_ERRORS[..8] + RETRYABLE_ERRORS[8..];
  }

  /** Every error that database retries wait for is also one that parks logs in memory. */
  lemma RetryableIsTransient(e: Error)
    requires Retryable(RETRYABLE_ERRORS, e)
    ensures Transient(e)
  {
    var p :| p in RETRYABLE_ERRORS && Mentions(e, p);
    TransientPatterns(p);
    MentionsLowered(e, p);
  }

  /**
   The converse fails for exactly two kinds of error: those that spell a retryable pattern only in
   another letter case, and those of an exhausted pool that spell none at all.
   */
  lemma TransientNotRetriedIff(e: Error)
    ensures Transient(e) && !Retryable(RETRYABLE_ERRORS, e) <==>
              && (forall p | p in RETRYABLE_ERRORS :: !Mentions(e, p))
              && ((exists p | p in RETRYABLE_ERRORS :: MentionsAnyCase(e, p)) || MentionsAnyCase(e, EXHAUSTED_POOL))
  {
    hide Mentions, MentionsAnyCase;
    forall p ensures p in TRANSIENT_ERRORS <==> p in RETRYABLE_ERRORS || p == EXHAUSTED_POOL {
      TransientPatterns(p);
    }
  }

  /** A substring must start somewhere it fits. */
  lemma NotIncluded(s: string, sub: string)
    requires sub != [] && forall i | 0 <= i <= |s| - |sub| :: s[i] != sub[0]
    ensures !Includes(s, sub)
  {
    forall i | 0 <= i <= |s| ensures !(sub <= s[i..]) {
      if i <= |s| - |sub| {
        assert s[i..][0] == s[i];
      }
    }
  }

  lemma PoolErrorSpellsNone(p: string)
    requires p in RETRYABLE_ERRORS
    ensures !Mentions(Error("Error", EXHAUSTED_POOL), p)
  {
    NotIncluded(EXHAUSTED_POOL, p);
    NotIncluded("Error", p);
  }

  lemma UpperCaseSpellsNone(p: string)
    requires p in RETRYABLE_ERRORS
    ensures !Mentions(Error("Error", "DEADLOCK"), p)
  {
    NotIncluded("DEADLOCK", p);
    NotIncluded("Error", p);
  }

  lemma FullPoolIsTransient()
    ensures MentionsAnyCase(Error("Error", EXHAUSTED_POOL), EXHAUSTED_POOL)
  {
    assert EXHAUSTED_POOL <= EXHAUSTED_POOL[0..];
    IncludesLowered(EXHAUSTED_POOL, EXHAUSTED_POOL);
  }

  lemma UpperCaseIsTransient()
    ensures MentionsAnyCase(Error("Error", "DEADLOCK"), "deadlock")
  {
    assert ToLower("deadlock") == ToLower("DEADLOCK") == ToLower("DEADLOCK")[0..];
  }

  /** Both kinds occur: a full pool, and a deadlock reported in capitals, park logs without a retry. */
  lemma TransientYetNotRetried()
    ensures var e := Error("Error", EXHAUSTED_POOL); Transient(e) && !Retryable(RETRYABLE_ERRORS, e)
    ensures var e := Error("Error", "DEADLOCK"); Transient(e) && !Retryable(RETRYABLE_ERRORS, e)
  {
    hide Mentions, MentionsAnyCase, Transient, Retryable;
    FullPoolIsTransient();
    UpperCaseIsTransient();
    assert RETRYABLE_ERRORS[6] == "deadlock";
    forall p | p in RETRYABLE_ERRORS
      ensures !Mentions(Error("Error", EXHAUSTED_POOL), p) && !Mentions(Error("Error", "DEADLOCK"), p)
    {
      PoolErrorSpellsNone(p);
      UpperCaseSpellsNone(p);
    }
    TransientNotRetriedIff(Error("Error", EXHAUSTED_POOL));
    TransientNotRetriedIff(Error("Error", "DEADLOCK"));
  }

  // ---- What the error classes say of an error's text ----

  /** A substring is what lies between two parts of a string. */
  lemma IncludesIff(s: string, sub: string)
    ensures Includes(s, sub) <==> exists a: string, b: string :: s == a + sub + b
  {
    if Includes(s, sub) {
      var i :| 0 <= i <= |s| && sub <= s[i..];
      assert s == s[..i] + sub + s[i + |sub|..];
    }
    forall a: string, b: string | s == a + sub + b ensures Includes(s, sub) {
      assert s[|a|..] == sub + b;
    }
  }

  /** The same letter, in either case. */
  predicate SameLetter(c: char, d: char) {
    || c == d
    || ('A' <= c <= 'Z' && d as int == c as int + 32)
    || ('A' <= d <= 'Z' && c as int == d as int + 32)
  }

  /** The same text up to letter case. */
  predicate SameSpelling(s: string, t: string) {
    |s| == |t| && forall i | 0 <= i < |s| :: SameLetter(s[i], t[i])
  }

  lemma LowerIffSameLetter(c: char, d: char)
    ensures LowerChar(c) == LowerChar(d) <==> SameLetter(c, d)
  {
  }

  lemma LowerIffSameSpelling(s: string, t: string)
    ensures ToLower(s) == ToLower(t) <==> SameSpelling(s, t)
  {
    if |s| == |t| {
      forall i | 0 <= i < |s| ensures ToLower(s)[i] == ToLower(t)[i] <==> SameLetter(s[i], t[i]) {
        LowerIffSameLetter(s[i], t[i]);
      }
      hide SameLetter;
      assert ToLower(s) == ToLower(t) <==> forall i | 0 <= i < |s| :: ToLower(s)[i] == ToLower(t)[i];
    } else {
      assert |ToLower(s)| != |ToLower(t)|;
    }
  }

  lemma LowerConcat(a: string, b: string)
    ensures ToLower(a + b) == ToLower(a) + ToLower(b)
  {
  }

  lemma LowerParts(a: string, q: string, b: string)
    ensures ToLower(a + q + b) == ToLower(a) + ToLower(q) + ToLower(b)
  {
    LowerConcat(a + q, b);
    LowerConcat(a, q);
  }

  /** The text holds `p`, in whatever letter case. */
  ghost predicate Spells(s: string, p: string) {
    exists a: string, q: string, b: string :: s == a + q + b && SameSpelling(q, p)
  }

  lemma SpellsIff(s: string, p: string)
    ensures Includes(ToLower(s), ToLower(p)) <==> Spells(s, p)
  {
    IncludesIff(ToLower(s), ToLower(p));
    hide Includes, SameSpelling, ToLower;
    if Includes(ToLower(s), ToLower(p)) {
      var a: string, b: string :| ToLower(s) == a + ToLower(p) + b;
      SpelledAt(s, p, a, b);
    }
    forall a: string, q: string, b: string | s == a + q + b && SameSpelling(q, p)
      ensures Includes(ToLower(s), ToLower(p))
    {
      LowerParts(a, q, b);
      LowerIffSameSpelling(q, p);
    }
  }

  lemma SpelledAt(s: string, p: string, a: string, b: string)
    requires ToLower(s) == a + ToLower(p) + b
    ensures Spells(s, p)
  {
    var q := s[|a|..|a| + |p|];
    assert |ToLower(p)| == |p| && |ToLower(s)| == |s|;
    assert s == s[..|a|] + q + s[|a| + |p|..];
    forall i | 0 <= i < |p| ensures ToLower(q)[i] == ToLower(p)[i] {
      assert ToLower(s)[|a| + i] == (a + ToLower(p) + b)[|a| + i];
    }
    assert ToLower(q) == ToLower(p);
    LowerIffSameSpelling(q, p);
  }

  /** An error is retried when its message or name holds a listed pattern, verbatim; without a list, always. */
  lemma RetryableIff(e: Error)
    ensures Retryable([], e)
    ensures Retryable(RETRYABLE_ERRORS, e) <==>
            exists p, a, b :: p in RETRYABLE_ERRORS && (e.message == a + p + b || e.name == a + p + b)
  {
    forall p ensures Mentions(e, p) <==> exists a, b :: e.message == a + p + b || e.name == a + p + b {
      IncludesIff(e.message, p);
      IncludesIff(e.name, p);
    }
    hide Mentions;
  }

  /** An error is transient when its message or name holds a listed pattern, in any letter case. */
  lemma TransientIff(e: Error)
    ensures Transient(e) <==> exists p | p in TRANSIENT_ERRORS :: Spells(e.message, p) || Spells(e.name, p)
  {
    forall p ensures MentionsAnyCase(e, p) <==> Spells(e.message, p) || Spells(e.name, p) {
      SpellsIff(e.message, p);
      SpellsIff(e.name, p);
    }
    hide MentionsAnyCase, Spells;
  }

  lemma Spelled(a: string, q: string, b: string, p: string)
    requires SameSpelling(q, p)
    ensures Spells(a + q + b, p)
  {
  }

  /** Whatever surrounds it, each of these texts makes an error one that is retried, and parked at last. */
  lemma OutageTexts(p: string, a: string, b: string, other: string)
    requires p in ["ECONNREFUSED", "ETIMEDOUT", "ENOTFOUND", "EHOSTUNREACH", "connection timeout",
                   "connection lost", "deadlock", "lock timeout", "QueryFailedError"]
    ensures var e := Error(other, a + p + b); Retryable(RETRYABLE_ERRORS, e) && Transient(e)
    ensures var e := Error(a + p + b, other); Retryable(RETRYABLE_ERRORS, e) && Transient(e)
  {
    assert p in RETRYABLE_ERRORS;
    hide Retryable, Transient;
    forall e | e == Error(other, a + p + b) || e == Error(a + p + b, other)
      ensures Retryable(RETRYABLE_ERRORS, e) && Transient(e)
    {
      RetryableIff(e);
      RetryableIsTransient(e);
    }
  }

  /** In any letter case these texts, and that of a full pool, make an error transient. */
  lemma TransientTexts(p: string, q: string, a: string, b: string, other: string)
    requires p in ["ECONNREFUSED", "ETIMEDOUT", "ENOTFOUND", "EHOSTUNREACH", "connection timeout",
                   "connection lost", "deadlock", "lock timeout", "too many connections", "QueryFailedError"]
    requires SameSpelling(q, p)
    ensures Transient(Error(other, a + q + b)) && Transient(Error(a + q + b, other))
  {
    assert p in TRANSIENT_ERRORS;
    hide Transient, Spells;
    Spelled(a, q, b, p);
    TransientIff(Error(other, a + q + b));
    TransientIff(Error(a + q + b, other));
  }

  // ---- The retry loop ----

  function Pow2(n: nat): (p: nat)
    ensures p >= 1
  {
    if n == 0 then 1 else 2 * Pow2(n - 1)
  }

  function Min(a: int, b: int): int {
    if a <= b then a else b
  }

  /** The pause after failed attempt `attempt`. */
  function Delay(o: Options, attempt: nat): int
    requires attempt >= 1
  {
    Min(o.baseDelay * Pow2(attempt - 1), o.maxDelay)
  }

  /** Whether attempt `attempt`, having failed with `e`, is followed by another. */
  predicate RetriesAfter(o: Options, attempt: nat, e: Error) {
    attempt <= o.maxRetries && Retryable(o.retryableErrors, e)
  }

  /**
   `fn(k)` is what the k-th call does. The call returns the first success, or throws the first
   error that is not retryable or that ends call maxRetries + 1.
   */
  method WithRetry<T>(fn: nat -> Outcome<T>, o: Options) returns (result: Result<T>, calls: nat, delays: seq<int>)
    ensures o.maxRetries < 0 <==> calls == 0
    ensures calls == 0 ==> result == ThrewNothing
    ensures calls <= if o.maxRetries < 0 then 0 else o.maxRetries + 1
    ensures forall k: nat | 1 <= k < calls :: fn(k).Threw? && Retryable(o.retryableErrors, fn(k).error)
    ensures calls > 0 && fn(calls).Returned? ==> result == Done(fn(calls).value)
    ensures calls > 0 && fn(calls).Threw? ==> result == Failed(fn(calls).error)
    ensures calls > 0 && fn(calls).Threw? ==>
              calls == o.maxRetries + 1 || !Retryable(o.retryableErrors, fn(calls).error)
    ensures |delays| == if calls == 0 then 0 else calls - 1
    ensures forall k | 0 <= k < |delays| :: delays[k] == Delay(o, k + 1)
  {
    calls, delays := 0, [];
    var attempt: nat := 1;
    while attempt <= o.maxRetries + 1
      invariant calls == attempt - 1 == |delays|
      invariant calls <= if o.maxRetries < 0 then 0 else o.maxRetries
      invariant forall k: nat | 1 <= k <= calls :: fn(k).Threw? && Retryable(o.retryableErrors, fn(k).error)
      invariant forall k | 0 <= k < |delays| :: delays[k] == Delay(o, k + 1)
      decreases o.maxRetries + 1 - attempt
    {
      calls := attempt;
      match fn(attempt) {
        case Returned(value) => return Done(value), calls, delays;
        case Threw(lastError) =>
          if attempt > o.maxRetries {
            return Failed(lastError), calls, delays;
          }
          if o.retryableErrors != [] && !Retryable(o.retryableErrors, lastError) {
            return Failed(lastError), calls, delays;
          }
          delays := delays + [Delay(o, attempt)];
      }
      attempt := attempt + 1;
    }
    result := ThrewNothing;
  }

  // ---- Backoff ----

  lemma {:induction false} Pow2Monotone(m: nat, n: nat)
    requires m <= n
    ensures Pow2(m) <= Pow2(n)
  {
    if m == n {
    } else {
      Pow2Monotone(m, n - 1);
    }
  }

  /** The first pause is the base, and each next one is twice as long as long as that is below the cap. */
  lemma DelayDoubles(o: Options, attempt: nat)
    requires attempt >= 1 && o.baseDelay >= 0 && o.maxDelay >= 0
    ensures Delay(o, 1) == if o.baseDelay <= o.maxDelay then o.baseDelay else o.maxDelay
    ensures Delay(o, attempt + 1) == if 2 * Delay(o, attempt) <= o.maxDelay then 2 * Delay(o, attempt) else o.maxDelay
  {
    assert Pow2(attempt) == 2 * Pow2(attempt - 1) && Pow2(0) == 1;
    hide Pow2;
    TwiceScaled(o.baseDelay, Pow2(attempt - 1));
  }

  lemma TwiceScaled(base: int, p: int)
    ensures base * (2 * p) == 2 * (base * p)
  {
  }

  /** A save that keeps failing is tried four times, after pauses of 200, 400 and 800 milliseconds. */
  lemma DatabasePauses(e: Error)
    ensures Delay(DATABASE_OPTIONS, 1) == 200 && Delay(DATABASE_OPTIONS, 2) == 400 && Delay(DATABASE_OPTIONS, 3) == 800
    ensures forall attempt: nat :: RetriesAfter(DATABASE_OPTIONS, attempt, e) <==>
                                   attempt <= 3 && Retryable(RETRYABLE_ERRORS, e)
  {
    DelayDoubles(DATABASE_OPTIONS, 1);
    DelayDoubles(DATABASE_OPTIONS, 2);
  }

  lemma DelaysGrow(o: Options, i: nat, j: nat)
    requires 1 <= i <= j && o.baseDelay >= 0
    ensures Delay(o, i) <= Delay(o, j)
  {
    hide Pow2;
    Pow2Monotone(i - 1, j - 1);
    ScaledMonotone(o.baseDelay, Pow2(i - 1), Pow2(j - 1));
  }

  lemma ScaledMonotone(base: int, low: int, high: int)
    requires base >= 0 && low <= high
    ensures base * low <= base * high
  {
  }

  lemma Doubled(base: int, p: int)
    ensures base * (2 * p - 1) == base * (p - 1) + base * p
  {
  }

  lemma OneMore(n: int, cap: int)
    ensures n * cap == (n - 1) * cap + cap
  {
  }

  function Sum(delays: seq<int>): int {
    if delays == [] then 0 else Sum(delays[..|delays| - 1]) + delays[|delays| - 1]
  }

  /** Backing off costs at most the full geometric sum, and at most the cap for every pause. */
  lemma {:induction false} TotalDelayBound(o: Options, delays: seq<int>)
    requires forall k | 0 <= k < |delays| :: delays[k] == Delay(o, k + 1)
    ensures Sum(delays) <= Min(o.baseDelay * (Pow2(|delays|) - 1), |delays| * o.maxDelay)
  {
    var n := |delays|;
    if n == 0 {
    } else {
      TotalDelayBound(o, delays[..n - 1]);
      assert Pow2(n) == 2 * Pow2(n - 1);
      hide Pow2;
      Doubled(o.baseDelay, Pow2(n - 1));
      OneMore(n, o.maxDelay);
    }
  }
}
