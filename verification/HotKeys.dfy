/** Counting cache hits and misses, and the scan that finds the keys worth pre-warming. */
module HotKeys {
  import opened CacheKeys
  import opened Optional

  const DEFAULT_THRESHOLD := 100

  function Counter(counters: map<string, nat>, key: string): nat {
    if key in counters then counters[key] else 0
  }

  function Hits(counters: map<string, nat>, cacheKey: string): nat {
    Counter(counters, CounterKey(cacheKey, true))
  }

  function Misses(counters: map<string, nat>, cacheKey: string): nat {
    Counter(counters, CounterKey(cacheKey, false))
  }

  function Threshold(thresholds: map<string, int>, cacheKey: string): int {
    if cacheKey in thresholds then thresholds[cacheKey] else DEFAULT_THRESHOLD
  }

  function HitRate(hits: nat, misses: nat): real {
    if hits + misses > 0 then hits as real / (hits + misses) as real * 100.0 else 0.0
  }

  predicate Needs(counters: map<string, nat>, thresholds: map<string, int>, cacheKey: string) {
    var hits, misses := Hits(counters, cacheKey), Misses(counters, cacheKey);
    HitRate(hits, misses) < 50.0 && hits + misses > Threshold(thresholds, cacheKey)
  }

  lemma BelowHalf(h: real, t: real)
    requires t > 0.0
    ensures h / t < 0.5 <==> h + h < t
  {
    var q := h / t;
    assert q * t == h;
    if q < 0.5 {
      assert (0.5 - q) * t > 0.0;
    } else {
      assert (q - 0.5) * t >= 0.0;
    }
  }

  /** A rate below one half is more misses than hits, or no access at all. */
  lemma HitRateBelowHalf(hits: nat, misses: nat)
    ensures HitRate(hits, misses) < 50.0 <==> hits < misses || hits + misses == 0
  {
    if hits + misses > 0 {
      BelowHalf(hits as real, (hits + misses) as real);
      assert hits as real + hits as real == (hits + hits) as real;
    }
  }

  /** INCRBY 1, which starts a missing counter at zero. */
  function Incremented(counters: map<string, nat>, key: string): map<string, nat> {
    counters[key := Counter(counters, key) + 1]
  }

  /** The counters after a run of accesses. */
  function CountersOf(accesses: seq<(Params, bool)>): map<string, nat> {
    if accesses == [] then map[]
    else
      var last := accesses[|accesses| - 1];
      Incremented(CountersOf(accesses[..|accesses| - 1]), CounterKey(PrintKey(last.0), last.1))
  }

  /** The counters and custom thresholds in Redis; a scan reads them without interference. */
  class CacheHitTracker {
    var counters: map<string, nat>
    var thresholds: map<string, int>

    constructor ()
      ensures counters == map[] && thresholds == map[]
    {
      counters, thresholds := map[], map[];
    }

    method TrackAccess(cacheKey: string, isHit: bool)
      modifies this`counters
      ensures counters == Incremented(old(counters), CounterKey(cacheKey, isHit))
    {
      var key := CounterKey(cacheKey, isHit);
      if key !in counters {
        counters := counters[key := 0];
      }
      counters := counters[key := counters[key] + 1];
    }

    method SetThreshold(cacheKey: string, threshold: int)
      modifies this`thresholds
      ensures thresholds == old(thresholds)[cacheKey := threshold]
    {
      thresholds := thresholds[cacheKey := threshold];
    }

    /** `keys` is the answer to KEYS cache:hits:*, in whatever order Redis gives it. */
    method GetHotCacheKeys(keys: seq<string>) returns (hotKeys: seq<string>)
      ensures IsScan(keys, counters, thresholds, hotKeys)
    {
      hotKeys := [];
      for i := 0 to |keys|
        invariant IsScan(keys[..i], counters, thresholds, hotKeys)
      {
        var cacheKey := StripCounterKey(keys[i]);
        assert keys[..i + 1] == keys[..i] + [keys[i]];
        if cacheKey in hotKeys {
          continue;
        }
        if Needs(counters, thresholds, cacheKey) {
          hotKeys := hotKeys + [cacheKey];
        }
      }
      assert keys[..|keys|] == keys;
    }
  }

  /** The scan over `keys` found every key that needs pre-warming, once. */
  ghost predicate IsScan(keys: seq<string>, counters: map<string, nat>, thresholds: map<string, int>,
                         hotKeys: seq<string>)
  {
    && (forall i, j | 0 <= i < j < |hotKeys| :: hotKeys[i] != hotKeys[j])
    && forall c :: c in hotKeys <==>
         Needs(counters, thresholds, c) && exists key :: key in keys && StripCounterKey(key) == c
  }

  /** The counters are those of tracked queries, each counted at least once, and `keys` lists them all. */
  ghost predicate Tracks(tracked: set<(Params, bool)>, counters: map<string, nat>, keys: seq<string>) {
    && (forall key :: key in keys <==> key in counters)
    && (forall key | key in counters ::
          counters[key] > 0 && exists a :: a in tracked && key == CounterKey(PrintKey(a.0), a.1))
    && (forall a | a in tracked :: CounterKey(PrintKey(a.0), a.1) in counters)
  }

  /**
   Of tracked queries the scan returns exactly the keys with more misses than hits and more
   accesses than their threshold.
   */
  lemma ScanIsExact(tracked: set<(Params, bool)>, counters: map<string, nat>, thresholds: map<string, int>,
                    keys: seq<string>, hotKeys: seq<string>, p: Params)
    requires Tracks(tracked, counters, keys) && IsScan(keys, counters, thresholds, hotKeys)
    ensures PrintKey(p) in hotKeys <==>
              && ((p, true) in tracked || (p, false) in tracked)
              && Hits(counters, PrintKey(p)) < Misses(counters, PrintKey(p))
              && Hits(counters, PrintKey(p)) + Misses(counters, PrintKey(p))
                 > if PrintKey(p) in thresholds then thresholds[PrintKey(p)] else 100
  {
    var c := PrintKey(p);
    TrackedIffCounted(tracked, counters, keys, p, true);
    TrackedIffCounted(tracked, counters, keys, p, false);
    StripCounted(p, true);
    StripCounted(p, false);
    HitRateBelowHalf(Hits(counters, c), Misses(counters, c));
    if key :| key in keys && StripCounterKey(key) == c {
      var a :| a in tracked && key == CounterKey(PrintKey(a.0), a.1);
      StripCounted(a.0, a.1);
      KeysDistinct(a.0, p);
    }
  }

  lemma TrackedIffCounted(tracked: set<(Params, bool)>, counters: map<string, nat>, keys: seq<string>,
                          p: Params, isHit: bool)
    requires Tracks(tracked, counters, keys)
    ensures (p, isHit) in tracked <==> Counter(counters, CounterKey(PrintKey(p), isHit)) > 0
    ensures (p, isHit) in tracked ==> CounterKey(PrintKey(p), isHit) in keys
  {
    var key := CounterKey(PrintKey(p), isHit);
    if key in counters {
      var a :| a in tracked && key == CounterKey(PrintKey(a.0), a.1);
      CountersDistinct(a.0, a.1, p, isHit);
      assert a == (p, isHit);
    }
  }

  /** Nothing but keys of tracked queries is ever hot, and each refreshes the query it was counted for. */
  lemma HotKeysRefresh(tracked: set<(Params, bool)>, counters: map<string, nat>, thresholds: map<string, int>,
                       keys: seq<string>, hotKeys: seq<string>, c: string) returns (p: Params)
    requires Tracks(tracked, counters, keys) && IsScan(keys, counters, thresholds, hotKeys) && c in hotKeys
    ensures c == PrintKey(p) && ((p, true) in tracked || (p, false) in tracked)
    ensures Refreshed(c) == if HasNaN(p) then None else Some(p)
  {
    var key :| key in keys && StripCounterKey(key) == c;
    var a :| a in tracked && key == CounterKey(PrintKey(a.0), a.1);
    StripCounted(a.0, a.1);
    CountedKeyRefreshes(a.0, a.1);
    p := a.0;
  }

  // ---- Runs of accesses ----

  /** Every counter holds the number of accesses of its kind and its parameters. */
  lemma {:induction false} CountersCount(accesses: seq<(Params, bool)>, p: Params, isHit: bool)
    ensures Counter(CountersOf(accesses), CounterKey(PrintKey(p), isHit)) == multiset(accesses)[(p, isHit)]
  {
    if accesses == [] {
    } else {
      var init, last := accesses[..|accesses| - 1], accesses[|accesses| - 1];
      assert accesses == init + [last];
      CountersCount(init, p, isHit);
      CountersDistinct(last.0, last.1, p, isHit);
    }
  }

  lemma {:induction false} CountersTrack(accesses: seq<(Params, bool)>, keys: seq<string>)
    requires forall key :: key in keys <==> key in CountersOf(accesses)
    ensures Tracks((set a | a in accesses), CountersOf(accesses), keys)
  {
    forall key | key in CountersOf(accesses)
      ensures CountersOf(accesses)[key] > 0 && exists a :: a in accesses && key == CounterKey(PrintKey(a.0), a.1)
    {
      CountedFor(accesses, key);
    }
    forall a | a in accesses ensures CounterKey(PrintKey(a.0), a.1) in CountersOf(accesses) {
      CountersCount(accesses, a.0, a.1);
      assert a in multiset(accesses);
    }
  }

  lemma {:induction false} CountedFor(accesses: seq<(Params, bool)>, key: string)
    requires key in CountersOf(accesses)
    ensures CountersOf(accesses)[key] > 0 && exists a :: a in accesses && key == CounterKey(PrintKey(a.0), a.1)
  {
    var init, last := accesses[..|accesses| - 1], accesses[|accesses| - 1];
    if key == CounterKey(PrintKey(last.0), last.1) {
      assert last in accesses;
    } else {
      CountedFor(init, key);
      var a :| a in init && key == CounterKey(PrintKey(a.0), a.1);
      assert a in accesses;
    }
  }

  /**
   After any run of accesses the scan, in whatever order it meets the counters, returns exactly the
   queries missed more often than hit and asked for more often than their threshold.
   */
  lemma ScanOfAccesses(accesses: seq<(Params, bool)>, thresholds: map<string, int>, keys: seq<string>,
                       hotKeys: seq<string>, p: Params)
    requires forall key :: key in keys <==> key in CountersOf(accesses)
    requires IsScan(keys, CountersOf(accesses), thresholds, hotKeys)
    ensures PrintKey(p) in hotKeys <==>
              && multiset(accesses)[(p, true)] < multiset(accesses)[(p, false)]
              && multiset(accesses)[(p, true)] + multiset(accesses)[(p, false)]
                 > if PrintKey(p) in thresholds then thresholds[PrintKey(p)] else 100
  {
    hide IsScan;
    CountersTrack(accesses, keys);
    ScanIsExact((set a | a in accesses), CountersOf(accesses), thresholds, keys, hotKeys, p);
    CountersCount(accesses, p, true);
    CountersCount(accesses, p, false);
    if multiset(accesses)[(p, false)] > 0 {
      assert (p, false) in multiset(accesses);
    }
  }
}
