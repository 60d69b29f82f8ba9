/** When flushes do not overlap, logs reach the database in the order they were accepted. */
module LogOrder {
  import opened LogStorage
  import opened Retry
  import opened LogPipeline
  import opened LogConservation

  // ---- Subsequences ----

  ghost predicate IsSubsequence(a: seq<Log>, b: seq<Log>) {
    a == [] ||
    (b != [] &&
     if a[|a| - 1] == b[|b| - 1] then IsSubsequence(a[..|a| - 1], b[..|b| - 1]) else IsSubsequence(a, b[..|b| - 1]))
  }

  lemma {:induction false} SubLength(a: seq<Log>, b: seq<Log>)
    requires IsSubsequence(a, b)
    ensures |a| <= |b| && (|a| == |b| ==> a == b)
  {
    if a == [] {
    } else {
      if a[|a| - 1] == b[|b| - 1] {
        SubLength(a[..|a| - 1], b[..|b| - 1]);
      } else {
        SubLength(a, b[..|b| - 1]);
      }
    }
  }

  lemma {:induction false} SubReflexive(a: seq<Log>)
    ensures IsSubsequence(a, a)
  {
    if a == [] {
    } else {
      SubReflexive(a[..|a| - 1]);
    }
  }

  /** The longer list may end in something the shorter one skips. */
  lemma {:induction false} SubSkip(a: seq<Log>, b: seq<Log>, x: Log)
    requires IsSubsequence(a, b)
    ensures IsSubsequence(a, b + [x])
    decreases |b|, 1
  {
    assert (b + [x])[..|b|] == b;
    if a != [] && a[|a| - 1] == x {
      SubInit(a, b);
    }
  }

  lemma {:induction false} SubInit(a: seq<Log>, b: seq<Log>)
    requires IsSubsequence(a, b) && a != []
    ensures IsSubsequence(a[..|a| - 1], b)
    decreases |b|, 0
  {
    var b' := b[..|b| - 1];
    assert b == b' + [b[|b| - 1]];
    if a[|a| - 1] != b[|b| - 1] {
      SubInit(a, b');
    }
    SubSkip(a[..|a| - 1], b', b[|b| - 1]);
  }

  lemma SubSnoc(a: seq<Log>, b: seq<Log>, x: Log)
    requires IsSubsequence(a, b)
    ensures IsSubsequence(a + [x], b + [x])
  {
    assert (a + [x])[..|a|] == a && (b + [x])[..|b|] == b;
  }

  lemma {:induction false} SubConcat(a: seq<Log>, b: seq<Log>, c: seq<Log>, d: seq<Log>)
    requires IsSubsequence(a, b) && IsSubsequence(c, d)
    ensures IsSubsequence(a + c, b + d)
    decreases |d|
  {
    if d == [] {
      assert a + c == a && b + d == b;
    } else {
      var d', y := d[..|d| - 1], d[|d| - 1];
      assert b + d == (b + d') + [y];
      if c != [] && c[|c| - 1] == y {
        SubConcat(a, b, c[..|c| - 1], d');
        SubSnoc(a + c[..|c| - 1], b + d', y);
        assert a + c == (a + c[..|c| - 1]) + [y];
      } else {
        SubConcat(a, b, c, d');
        SubSkip(a + c, b + d', y);
      }
    }
  }

  lemma {:induction false} SubTransitive(a: seq<Log>, b: seq<Log>, c: seq<Log>)
    requires IsSubsequence(a, b) && IsSubsequence(b, c)
    ensures IsSubsequence(a, c)
    decreases |b| + |c|
  {
    if a == [] {
    } else {
      var c', z := c[..|c| - 1], c[|c| - 1];
      if b[|b| - 1] == z {
        if a[|a| - 1] == z {
          SubTransitive(a[..|a| - 1], b[..|b| - 1], c');
        } else {
          SubTransitive(a, b[..|b| - 1], c');
        }
      } else {
        SubTransitive(a, b, c');
        assert c == c' + [z];
        SubSkip(a, c', z);
      }
    }
  }

  lemma SubEmpty(a: seq<Log>)
    ensures IsSubsequence([], a)
  {
  }

  lemma {:induction false} SubSuffix(logs: seq<Log>, k: nat)
    requires k <= |logs|
    ensures IsSubsequence(logs[k..], logs)
    decreases |logs|
  {
    if k == |logs| {
    } else {
      var init := logs[..|logs| - 1];
      SubSuffix(init, k);
      hide IsSubsequence;
      SubSnoc(init[k..], init, logs[|logs| - 1]);
      assert init[k..] + [logs[|logs| - 1]] == logs[k..] && init + [logs[|logs| - 1]] == logs;
    }
  }

  lemma {:induction false} SubKeep(ps: seq<Parked>, now: int, maxAge: int)
    ensures IsSubsequence(Logs(Keep(ps, now, maxAge)), Logs(ps))
  {
    if ps == [] {
    } else {
      var init, last := ps[..|ps| - 1], ps[|ps| - 1];
      SubKeep(init, now, maxAge);
      assert Logs(ps) == Logs(init) + [last.log];
      var kept := Keep(init, now, maxAge);
      if Young(last, now, maxAge) {
        assert Keep(ps, now, maxAge) == kept + [last];
        assert Logs(kept + [last]) == Logs(kept) + [last.log];
        SubSnoc(Logs(kept), Logs(init), last.log);
      } else {
        assert Keep(ps, now, maxAge) == kept;
        SubSkip(Logs(kept), Logs(init), last.log);
      }
    }
  }

  // ---- The order of a run ----

  /** The logs of the only open flight. */
  function Aboard(s: Pipeline): seq<Log> {
    if s.flights == [] then [] else Carried(s.flights[0])
  }

  /** Everything that is saved or still to be saved, oldest first. */
  function Content(s: Pipeline): seq<Log> {
    s.database + Logs(s.memory) + Aboard(s) + s.queue
  }

  /**
   The event opens no second flight, and saves no batch whose flush failed to write back the
   parked logs: the database is up or down for the whole of a flush.
   */
  ghost predicate Orderly(s: Pipeline, e: Event, cfg: Config)
    requires Enabled(s, e)
  {
    && |Next(s, e, cfg).flights| <= 1
    && (e.SaveOk? && s.flights[e.i].SavingBatch? ==> !s.flights[e.i].writeBackFailed)
  }

  /** At most one flight, and memory is empty while a flight holds or has saved its contents. */
  ghost predicate Alone(s: Pipeline) {
    && |s.flights| <= 1
    && (s.flights != [] && !s.flights[0].Resuming? && (s.flights[0].SavingBatch? ==> !s.flights[0].writeBackFailed) ==>
          s.memory == [])
  }

  lemma NextAlone(s: Pipeline, e: Event, cfg: Config)
    requires Enabled(s, e) && Alone(s) && Orderly(s, e, cfg)
    ensures Alone(Next(s, e, cfg))
  {
    hide Retries, Transient, Losses, Logs, Stamp, Expired, Excess;
    if e.SaveErr? {
      if Retries(s.flights[0], e.error) {
        RetriedAlone(s, e.error);
      } else {
        GaveUpAlone(s, e.error, e.stamps, cfg);
      }
    }
  }

  lemma RetriedAlone(s: Pipeline, error: Error)
    requires Alone(s) && s.flights != [] && !s.flights[0].Resuming?
    ensures var f := s.flights[0]; Alone(s.(flights := Replace(s.flights, 0, [f.(errors := f.errors + [error])])))
  {
  }

  lemma GaveUpAlone(s: Pipeline, error: Error, stamps: seq<int>, cfg: Config)
    requires |s.flights| == 1 && |stamps| == |Saving(s.flights[0])|
    ensures Alone(GaveUp(s, 0, error, stamps, cfg))
  {
    hide Transient, Losses, Logs, Stamp, Excess;
    var f := s.flights[0];
    assert Replace(s.flights, 0, Heirs(f, false)) == Heirs(f, false);
  }

  /** `after` is `before` with some logs left out and `lost` of them missing. */
  ghost predicate Thinned(after: seq<Log>, before: seq<Log>, lost: int) {
    IsSubsequence(after, before) && |after| + lost == |before|
  }

  lemma ThinnedMiddle(a: seq<Log>, b: seq<Log>, b': seq<Log>, c: seq<Log>)
    requires IsSubsequence(b', b)
    ensures Thinned(a + b' + c, a + b + c, |b| - |b'|)
  {
    SubLength(b', b);
    SubReflexive(a);
    SubReflexive(c);
    SubConcat(a, a, b', b);
    SubConcat(a + b', a + b, c, c);
  }

  lemma ThinnedSame(a: seq<Log>)
    ensures Thinned(a, a, 0)
  {
    SubReflexive(a);
  }

  lemma TakeQueueContent(s: Pipeline, stopping: bool)
    requires s.flights == []
    ensures Content(TakeQueue(s, stopping)) == Content(s)
  {
    assert Logs([]) == [];
  }

  lemma DrainContent(s: Pipeline)
    requires s.flights == []
    ensures Content(Drain(s)) == Content(s)
  {
    assert Logs([]) == [];
  }

  lemma SavedContent(s: Pipeline)
    requires |s.flights| == 1 && s.memory == []
    ensures Content(Saved(s, 0)) == Content(s)
  {
    assert Logs([]) == [];
    var f := s.flights[0];
    assert Replace(s.flights, 0, Heirs(f, true)) == Heirs(f, true);
    match f
    case SavingMemory(parked, batch, _, stopping) =>
      assert s.database + [] + (parked + batch) + s.queue == s.database + parked + [] + batch + s.queue;
    case SavingBatch(batch, _, _, stopping) =>
      assert s.database + [] + batch + s.queue == s.database + batch + [] + [] + s.queue;
    case Draining(parked, _) =>
      assert s.database + [] + parked + s.queue == s.database + parked + [] + [] + s.queue;
    case Resuming =>
  }

  /** Parking what a flight carried loses the oldest logs in memory and leaves the rest in order. */
  lemma ParkContent(s: Pipeline, logs: seq<Log>, stamps: seq<int>, cfg: Config)
    requires |logs| == |stamps|
    ensures Thinned(s.database + Logs(Park(s, logs, stamps, cfg).memory) + Aboard(s) + s.queue,
                    s.database + Logs(s.memory) + logs + Aboard(s) + s.queue,
                    Excess(|s.memory| + |logs|, cfg.maxSize))
  {
    var all := s.memory + Stamp(logs, stamps);
    var over := Excess(|all|, cfg.maxSize);
    assert Logs(all) == Logs(s.memory) + logs;
    assert Logs(all[over..]) == Logs(all)[over..];
    SubSuffix(Logs(all), over);
    ThinnedMiddle(s.database, Logs(all), Logs(all[over..]), Aboard(s) + s.queue);
    assert s.database + Logs(all[over..]) + (Aboard(s) + s.queue)
        == s.database + Logs(all[over..]) + Aboard(s) + s.queue;
    assert s.database + Logs(all) + (Aboard(s) + s.queue) == s.database + Logs(s.memory) + logs + Aboard(s) + s.queue;
  }

  /** `rest` is `s` with a flight that carried `logs` landed, before they are parked. */
  lemma ParkedContent(s: Pipeline, rest: Pipeline, logs: seq<Log>, stamps: seq<int>, cfg: Config)
    requires |logs| == |stamps|
    requires rest.database == s.database && rest.memory == s.memory && rest.queue == s.queue
    requires Aboard(s) == logs + Aboard(rest)
    ensures Thinned(Content(Park(rest, logs, stamps, cfg)), Content(s), Excess(|s.memory| + |logs|, cfg.maxSize))
  {
    hide Thinned, Park;
    ParkContent(rest, logs, stamps, cfg);
    ParkKeeps(rest, logs, stamps, cfg);
    assert s.database + Logs(s.memory) + logs + Aboard(rest) + s.queue == Content(s);
  }

  lemma GaveUpContent(s: Pipeline, error: Error, stamps: seq<int>, cfg: Config)
    requires |s.flights| == 1 && Enabled(s, SaveErr(0, error, stamps)) && !Retries(s.flights[0], error)
    ensures Thinned(Content(GaveUp(s, 0, error, stamps, cfg)), Content(s), LossSize(s, SaveErr(0, error, stamps), cfg))
  {
    hide Retries, Transient, Park, Thinned, Content;
    var f := s.flights[0];
    assert Replace(s.flights, 0, Heirs(f, false)) == Heirs(f, false);
    match f
    case SavingMemory(parked, batch, _, stopping) =>
      ParkedContent(s, s.(flights := [SavingBatch(batch, [], true, stopping)]), parked, stamps, cfg);
    case SavingBatch(batch, _, _, stopping) =>
      ParkedContent(s, s.(flights := Rest(stopping)), batch, stamps, cfg);
      LandedContent(s, batch, stopping);
    case Draining(parked, _) =>
      var rest := s.(flights := [], cleanupTimer := false);
      assert parked + [] == parked;
      ParkedContent(s, rest, parked, stamps, cfg);
  }

  /** A batch that is not parked goes in front of the queue, or is dropped as a whole. */
  lemma LandedContent(s: Pipeline, batch: seq<Log>, stopping: bool)
    requires Aboard(s) == batch
    ensures Thinned(Content(s.(flights := Rest(stopping), queue := batch + s.queue)), Content(s), 0)
    ensures forall lost :: Thinned(Content(s.(flights := Rest(stopping), lost := lost)), Content(s), |batch|)
  {
    hide Thinned;
    ThinnedSame(Content(s));
    assert s.database + Logs(s.memory) + [] + (batch + s.queue) == Content(s);
    SubEmpty(batch);
    ThinnedMiddle(s.database + Logs(s.memory), batch, [], s.queue);
  }

  lemma ParkKeeps(s: Pipeline, logs: seq<Log>, stamps: seq<int>, cfg: Config)
    requires |logs| == |stamps|
    ensures var after := Park(s, logs, stamps, cfg);
            after.database == s.database && after.flights == s.flights && after.queue == s.queue
  {
  }

  /** One event of an orderly run appends what it accepts or thins the content by what it loses. */
  lemma NextContent(s: Pipeline, e: Event, cfg: Config)
    requires Enabled(s, e) && Alone(s) && Orderly(s, e, cfg)
    ensures e.Add? ==> Content(Next(s, e, cfg)) == Content(s) + Accepts(s, e)
    ensures !e.Add? ==> Thinned(Content(Next(s, e, cfg)), Content(s), LossSize(s, e, cfg))
  {
    hide Retries, Transient, Thinned, Content, Saved, GaveUp, Keep, Expired;
    ThinnedSame(Content(s));
    match e
    case Add(clientId, endpoint, statusCode) => AddContent(s, Accepts(s, e)[0], cfg);
    case Tick =>
      if s.queue != [] {
        TakeQueueContent(s, false);
      }
    case Stop => StopContent(s);
    case Resume(i) => ResumeContent(s);
    case SaveOk(i) => SavedContent(s);
    case SaveErr(i, error, stamps) =>
      if Retries(s.flights[i], error) {
        RetriedContent(s, error);
      } else {
        GaveUpContent(s, error, stamps, cfg);
      }
    case Cleanup(now) => CleanupContent(s, now, cfg.maxAge);
    case Clear => CleanupClear(s);
  }

  lemma AddContent(s: Pipeline, log: Log, cfg: Config)
    ensures var pushed := s.(queue := s.queue + [log], accepted := s.accepted + [log]);
            && Content(pushed) == Content(s) + [log]
            && (s.flights == [] ==> Content(TakeQueue(pushed, false)) == Content(s) + [log])
  {
    var pushed := s.(queue := s.queue + [log], accepted := s.accepted + [log]);
    assert Content(pushed) == Content(s) + [log];
    hide Content;
    if s.flights == [] {
      TakeQueueContent(pushed, false);
    }
  }

  /** The pipeline after the first stretch of a shutdown. */
  function Stopped(s: Pipeline): Pipeline {
    var untimed := s.(batchTimer := false);
    if s.queue != [] then TakeQueue(untimed, true) else Drain(untimed)
  }

  lemma StopContent(s: Pipeline)
    requires Alone(s) && |Stopped(s).flights| <= 1
    ensures Content(Stopped(s)) == Content(s)
  {
    var untimed := s.(batchTimer := false);
    assert Content(untimed) == Content(s);
    if s.queue != [] {
      TakeQueueContent(untimed, true);
    } else if s.flights == [] {
      DrainContent(untimed);
    }
  }

  lemma ResumeContent(s: Pipeline)
    requires |s.flights| == 1 && s.flights[0].Resuming?
    ensures Content(Drain(s.(flights := Replace(s.flights, 0, [])))) == Content(s)
  {
    var resumed := s.(flights := []);
    assert Replace(s.flights, 0, []) == [];
    DrainContent(resumed);
  }

  lemma RetriedContent(s: Pipeline, error: Error)
    requires |s.flights| == 1 && !s.flights[0].Resuming?
    ensures var f := s.flights[0];
            Content(s.(flights := Replace(s.flights, 0, [f.(errors := f.errors + [error])]))) == Content(s)
  {
    var f := s.flights[0];
    assert Replace(s.flights, 0, [f.(errors := f.errors + [error])]) == [f.(errors := f.errors + [error])];
  }

  /** A store that keeps some of its logs in order thins the content by the others. */
  lemma MemoryThinned(s: Pipeline, memory: seq<Parked>, lost: seq<Loss>)
    requires IsSubsequence(Logs(memory), Logs(s.memory))
    ensures Thinned(Content(s.(memory := memory, lost := lost)), Content(s), |s.memory| - |memory|)
  {
    var rest := Aboard(s) + s.queue;
    ThinnedMiddle(s.database, Logs(s.memory), Logs(memory), rest);
    hide IsSubsequence, Thinned, Logs;
    assert s.database + Logs(s.memory) + rest == Content(s);
    assert s.database + Logs(memory) + rest == Content(s.(memory := memory, lost := lost));
  }

  lemma CleanupContent(s: Pipeline, now: int, maxAge: int)
    ensures forall lost :: Thinned(Content(s.(memory := Keep(s.memory, now, maxAge), lost := lost)), Content(s),
                                   |s.memory| - |Keep(s.memory, now, maxAge)|)
  {
    hide *;
    SubKeep(s.memory, now, maxAge);
    forall lost {
      MemoryThinned(s, Keep(s.memory, now, maxAge), lost);
    }
  }

  lemma CleanupClear(s: Pipeline)
    ensures forall lost :: Thinned(Content(s.(memory := [], lost := lost)), Content(s), |s.memory|)
  {
    assert Logs([]) == [];
    hide *;
    SubEmpty(Logs(s.memory));
    forall lost {
      MemoryThinned(s, [], lost);
    }
  }

  ghost predicate OrderlyRun(ss: seq<Pipeline>, es: seq<Event>, cfg: Config)
    requires IsRun(ss, es, cfg)
  {
    forall k | 0 <= k < |es| :: Orderly(ss[k], es[k], cfg)
  }

  lemma OrderStep(s: Pipeline, e: Event, cfg: Config)
    requires Enabled(s, e) && Alone(s) && Orderly(s, e, cfg)
    requires IsSubsequence(Content(s), s.accepted) && |Content(s)| + |s.lost| == |s.accepted|
    ensures var s' := Next(s, e, cfg);
            IsSubsequence(Content(s'), s'.accepted) && |Content(s')| + |s'.lost| == |s'.accepted|
  {
    hide Next, Content, Alone, Orderly, IsSubsequence, Accounted;
    NextContent(s, e, cfg);
    NextAccepts(s, e, cfg);
    LedgerGrows(s, e, cfg);
    if e.Add? {
      SubSnoc(Content(s), s.accepted, Accepts(s, e)[0]);
    } else {
      assert s.accepted + [] == s.accepted;
      SubTransitive(Content(Next(s, e, cfg)), Content(s), s.accepted);
    }
  }

  lemma {:induction false} OrderKept(ss: seq<Pipeline>, es: seq<Event>, cfg: Config, k: nat)
    requires IsRun(ss, es, cfg) && OrderlyRun(ss, es, cfg) && k < |ss|
    ensures Alone(ss[k]) && IsSubsequence(Content(ss[k]), ss[k].accepted)
    ensures |Content(ss[k])| + |ss[k].lost| == |ss[k].accepted|
  {
    if k == 0 {
      assert Logs([]) == [];
    } else {
      hide Next, Content, Alone, Orderly, IsSubsequence;
      OrderKept(ss, es, cfg, k - 1);
      NextAlone(ss[k - 1], es[k - 1], cfg);
      OrderStep(ss[k - 1], es[k - 1], cfg);
    }
  }

  /**
   In every state of an orderly run, database, memory, flight and queue together hold logs in
   the order they were accepted, and all of them exactly when none was lost.
   */
  lemma InAcceptanceOrder(ss: seq<Pipeline>, es: seq<Event>, cfg: Config, k: nat)
    requires IsRun(ss, es, cfg) && OrderlyRun(ss, es, cfg) && k < |ss|
    ensures IsSubsequence(Content(ss[k]), ss[k].accepted)
    ensures Content(ss[k]) == ss[k].accepted <==> ss[k].lost == []
  {
    OrderKept(ss, es, cfg, k);
    SubLength(Content(ss[k]), ss[k].accepted);
  }

  // ---- Both conditions are needed ----

  /** Later logs have larger numbers. */
  ghost predicate Increasing(logs: seq<Log>) {
    forall i, j | 0 <= i < j < |logs| :: logs[i].id < logs[j].id
  }

  ghost predicate Among(a: seq<Log>, b: seq<Log>) {
    forall i | 0 <= i < |a| :: a[i] in b
  }

  lemma {:induction false} SubIncreasing(a: seq<Log>, b: seq<Log>)
    requires IsSubsequence(a, b) && AllNumbered(b)
    ensures Increasing(a) && forall i | 0 <= i < |a| :: a[i].id < |b|
    decreases |b|
  {
    if a == [] {
    } else {
      if a[|a| - 1] == b[|b| - 1] {
        SubIncreasing(a[..|a| - 1], b[..|b| - 1]);
      } else {
        SubIncreasing(a, b[..|b| - 1]);
      }
    }
  }

  /** A batch that is saved past logs still parked in memory breaks the order; past none, it does not. */
  lemma BatchOvertakesMemoryIff(s: Pipeline)
    requires |s.flights| == 1 && s.flights[0].SavingBatch? && s.flights[0].batch != []
    requires Numbered(s) && IsSubsequence(Content(s), s.accepted)
    ensures IsSubsequence(Content(Saved(s, 0)), s.accepted) <==> s.memory == []
  {
    if s.memory == [] {
      SavedContent(s);
    } else {
      var f, parked := s.flights[0], Logs(s.memory);
      assert Replace(s.flights, 0, Heirs(f, true)) == Rest(f.stopping);
      assert Content(Saved(s, 0)) == s.database + f.batch + parked + s.queue;
      hide IsSubsequence;
      SubIncreasing(Content(s), s.accepted);
      Positions(s.database, parked, f.batch, s.queue);
      Positions(s.database, f.batch, parked, s.queue);
      if IsSubsequence(Content(Saved(s, 0)), s.accepted) {
        SubIncreasing(Content(Saved(s, 0)), s.accepted);
      }
    }
  }

  lemma Positions(a: seq<Log>, b: seq<Log>, c: seq<Log>, d: seq<Log>)
    requires b != [] && c != []
    ensures (a + b + c + d)[|a|] == b[0] && (a + b + c + d)[|a| + |b|] == c[0]
  {
  }

  // ---- Any number of flushes at once ----

  lemma IncreasingInit(a: seq<Log>, b: seq<Log>)
    requires a != [] && b != [] && AllNumbered(b) && Increasing(a) && Among(a, b)
    ensures AllNumbered(b[..|b| - 1]) && Increasing(a[..|a| - 1]) && Among(a[..|a| - 1], b[..|b| - 1])
    ensures a[|a| - 1] != b[|b| - 1] ==> Among(a, b[..|b| - 1])
  {
    var init, last := b[..|b| - 1], b[|b| - 1];
    assert b == init + [last];
    forall i | 0 <= i < |a| ensures a[i] in init || (i == |a| - 1 && a[i] == last) {
      assert a[i] in b && a[|a| - 1] in b;
      assert a[i] == last ==> a[i].id == |b| - 1 >= a[|a| - 1].id;
    }
  }

  lemma {:induction false} IncreasingIsSub(a: seq<Log>, b: seq<Log>)
    requires AllNumbered(b) && Increasing(a) && Among(a, b)
    ensures IsSubsequence(a, b)
    decreases |b|
  {
    if a == [] {
    } else {
      assert a[0] in b;
      IncreasingInit(a, b);
      hide Increasing, AllNumbered, Among;
      var init, last := a[..|a| - 1], a[|a| - 1];
      if last == b[|b| - 1] {
        IncreasingIsSub(init, b[..|b| - 1]);
      } else {
        IncreasingIsSub(a, b[..|b| - 1]);
      }
    }
  }

  /** Logs among numbered ones are in their order exactly when their numbers grow. */
  lemma InOrderIffIncreasing(a: seq<Log>, b: seq<Log>)
    requires AllNumbered(b) && Among(a, b)
    ensures IsSubsequence(a, b) <==> Increasing(a)
  {
    if IsSubsequence(a, b) {
      SubIncreasing(a, b);
    } else if Increasing(a) {
      IncreasingIsSub(a, b);
    }
  }

  /** The logs that flight `i` saves are in order and come after everything saved before. */
  ghost predicate SavesNext(s: Pipeline, i: nat)
    requires i < |s.flights|
  {
    var logs := Saving(s.flights[i]);
    Increasing(logs) && (s.database != [] && logs != [] ==> s.database[|s.database| - 1].id < logs[0].id)
  }

  lemma IncreasingConcat(a: seq<Log>, b: seq<Log>)
    ensures Increasing(a + b) <==>
            Increasing(a) && Increasing(b) && (a != [] && b != [] ==> a[|a| - 1].id < b[0].id)
  {
    var all := a + b;
    if Increasing(all) {
      forall i, j | 0 <= i < j < |a| ensures a[i].id < a[j].id {
        assert all[i] == a[i] && all[j] == a[j];
      }
      forall i, j | 0 <= i < j < |b| ensures b[i].id < b[j].id {
        assert all[|a| + i] == b[i] && all[|a| + j] == b[j];
      }
      assert a != [] && b != [] ==> all[|a| - 1] == a[|a| - 1] && all[|a|] == b[0];
    }
  }

  /** Only a save changes the database, and it adds the logs of its flight at the end. */
  lemma DatabaseAfter(s: Pipeline, e: Event, cfg: Config)
    requires Enabled(s, e)
    ensures Next(s, e, cfg).database == s.database + (if e.SaveOk? then Saving(s.flights[e.i]) else [])
  {
    hide Retries, Transient, Keep, Expired, Losses, Logs, Stamp, Replace;
  }

  lemma DatabaseAccepted(s: Pipeline, cfg: Config)
    requires Sound(s, cfg)
    ensures AllNumbered(s.accepted) && Among(s.database, s.accepted)
  {
    hide FlightsSound, InFlight;
    forall i | 0 <= i < |s.database| ensures s.database[i] in s.accepted {
      assert Copies(s, s.database[i]) == Count(s.accepted, s.database[i]);
    }
  }

  lemma {:induction false} IncreasingIff(ss: seq<Pipeline>, es: seq<Event>, cfg: Config, k: nat)
    requires IsRun(ss, es, cfg) && k < |ss|
    ensures Increasing(ss[k].database) <==> forall j | 0 <= j < k && es[j].SaveOk? :: SavesNext(ss[j], es[j].i)
  {
    if k == 0 {
    } else {
      IncreasingIff(ss, es, cfg, k - 1);
      var s, e := ss[k - 1], es[k - 1];
      DatabaseAfter(s, e, cfg);
      hide Next, Increasing;
      assert s.database + [] == s.database;
      if e.SaveOk? {
        IncreasingConcat(s.database, Saving(s.flights[e.i]));
      }
    }
  }

  /**
   For every batch size and any number of open flushes: the database is in acceptance order if and
   only if every save so far added logs that were in order and later than all that was saved before.
   */
  lemma DatabaseInOrderIff(ss: seq<Pipeline>, es: seq<Event>, cfg: Config, k: nat)
    requires IsRun(ss, es, cfg) && k < |ss|
    ensures IsSubsequence(ss[k].database, ss[k].accepted) <==>
            forall j | 0 <= j < k && es[j].SaveOk? :: SavesNext(ss[j], es[j].i)
  {
    hide IsSubsequence, Increasing, Next;
    RunSound(ss, es, cfg, k);
    DatabaseAccepted(ss[k], cfg);
    InOrderIffIncreasing(ss[k].database, ss[k].accepted);
    IncreasingIff(ss, es, cfg, k);
  }

  /** Whatever the batch size, an add and a timer tick on an empty queue leave one flight more. */
  lemma AddThenTick(s: Pipeline, clientId: string, cfg: Config)
    requires s.queue == [] && s.memory == [] && s.batchTimer
    ensures var log := Log(|s.accepted|, clientId, "/", 200);
            Next(Next(s, Add(clientId, "/", 200), cfg), Tick, cfg) ==
            s.(flights := s.flights + [SavingBatch([log], [], false, false)], accepted := s.accepted + [log])
  {
    assert s.queue + [Log(|s.accepted|, clientId, "/", 200)] == [Log(|s.accepted|, clientId, "/", 200)];
  }

  lemma SaveAtOnce(s: Pipeline, i: nat, batch: seq<Log>, cfg: Config)
    requires i < |s.flights| && s.flights[i] == SavingBatch(batch, [], false, false)
    ensures Next(s, SaveOk(i), cfg) ==
            s.(database := s.database + batch, flights := s.flights[..i] + s.flights[i + 1..])
  {
    assert Replace(s.flights, i, []) == s.flights[..i] + s.flights[i + 1..];
  }

  /** A run in which every save succeeds, and the database ends up out of order. */
  ghost predicate SavesOutOfOrder(ss: seq<Pipeline>, es: seq<Event>, cfg: Config) {
    && IsRun(ss, es, cfg) && (forall e | e in es :: e.Add? || e.Tick? || e.SaveOk?)
    && !IsSubsequence(ss[|es|].database, ss[|es|].accepted)
  }

  lemma SwappedPair(a: Log, b: Log)
    requires a.id == 0 && b.id == 1
    ensures !IsSubsequence([b, a], [a, b])
  {
    var swapped := [b, a];
    assert swapped[0] == b && swapped[1] == a;
    if IsSubsequence(swapped, [a, b]) {
      SubIncreasing(swapped, [a, b]);
    }
  }

  ghost predicate Follows(s: Pipeline, e: Event, s': Pipeline, cfg: Config) {
    Enabled(s, e) && s' == Next(s, e, cfg)
  }

  lemma RunOfSix(ss: seq<Pipeline>, es: seq<Event>, cfg: Config)
    requires |ss| == 7 && |es| == 6 && ss[0] == INIT
    requires Follows(ss[0], es[0], ss[1], cfg) && Follows(ss[1], es[1], ss[2], cfg)
    requires Follows(ss[2], es[2], ss[3], cfg) && Follows(ss[3], es[3], ss[4], cfg)
    requires Follows(ss[4], es[4], ss[5], cfg) && Follows(ss[5], es[5], ss[6], cfg)
    ensures IsRun(ss, es, cfg)
  {
    hide Enabled, Next;
  }

  lemma AddKeepsTimer(s: Pipeline, clientId: string, cfg: Config)
    requires s.batchTimer
    ensures Follows(s, Add(clientId, "/", 200), Next(s, Add(clientId, "/", 200), cfg), cfg)
    ensures Enabled(Next(s, Add(clientId, "/", 200), cfg), Tick)
  {
  }

  /** Whatever the batch size, two flushes can be open at once and the later batch be saved first. */
  lemma OverlapReorders(cfg: Config)
    ensures exists ss, es :: SavesOutOfOrder(ss, es, cfg)
  {
    hide Next, IsSubsequence, IsRun;
    var first, second := Log(0, "a", "/", 200), Log(1, "b", "/", 200);
    var addFirst, addSecond := Add("a", "/", 200), Add("b", "/", 200);
    var f, g := SavingBatch([first], [], false, false), SavingBatch([second], [], false, false);
    var s2 := INIT.(flights := [f], accepted := [first]);
    var s4 := INIT.(flights := [f, g], accepted := [first, second]);
    var s5 := INIT.(flights := [f], accepted := [first, second], database := [second]);
    var s6 := INIT.(accepted := [first, second], database := [second, first]);
    AddKeepsTimer(INIT, "a", cfg);
    AddKeepsTimer(s2, "b", cfg);
    var s1, s3 := Next(INIT, addFirst, cfg), Next(s2, addSecond, cfg);
    assert Next(s1, Tick, cfg) == s2 by { AddThenTick(INIT, "a", cfg); }
    assert Next(s3, Tick, cfg) == s4 by { AddThenTick(s2, "b", cfg); }
    assert Next(s4, SaveOk(1), cfg) == s5 by { SaveAtOnce(s4, 1, [second], cfg); }
    assert Next(s5, SaveOk(0), cfg) == s6 by { SaveAtOnce(s5, 0, [first], cfg); }
    var ss, es := [INIT, s1, s2, s3, s4, s5, s6], [addFirst, Tick, addSecond, Tick, SaveOk(1), SaveOk(0)];
    RunOfSix(ss, es, cfg);
    SwappedPair(first, second);
    assert SavesOutOfOrder(ss, es, cfg);
  }
}
