/** The in-memory store that parks logs while the database is unavailable. */
module LogStorage {

  /** A log; `id` tells accepted logs apart and is otherwise unused. The remaining columns travel unread. */
  datatype Log = Log(id: nat, clientId: string, endpoint: string, statusCode: int)

  datatype Parked = Parked(log: Log, storedAt: int)

  datatype Reason = CapEviction | AgeExpiry | Cleared | QueueFull

  datatype Loss = Loss(log: Log, reason: Reason)

  function Stamp(logs: seq<Log>, stamps: seq<int>): (ps: seq<Parked>)
    requires |logs| == |stamps|
    ensures |ps| == |logs|
  {
    seq(|logs|, i requires 0 <= i < |logs| => Parked(logs[i], stamps[i]))
  }

  function Logs(ps: seq<Parked>): (logs: seq<Log>)
    ensures |logs| == |ps|
  {
    seq(|ps|, i requires 0 <= i < |ps| => ps[i].log)
  }

  function Losses(logs: seq<Log>, reason: Reason): (losses: seq<Loss>)
    ensures |losses| == |logs|
  {
    seq(|logs|, i requires 0 <= i < |logs| => Loss(logs[i], reason))
  }

  function Excess(n: nat, maxSize: nat): nat {
    if n > maxSize then n - maxSize else 0
  }

  predicate Young(p: Parked, now: int, maxAge: int) {
    now - p.storedAt < maxAge
  }

  /** What the age cleanup at `now` leaves. */
  function Keep(ps: seq<Parked>, now: int, maxAge: int): (r: seq<Parked>)
    ensures |r| <= |ps|
  {
    if ps == [] then []
    else Keep(ps[..|ps| - 1], now, maxAge) + (if Young(ps[|ps| - 1], now, maxAge) then [ps[|ps| - 1]] else [])
  }

  /** What the age cleanup at `now` removes. */
  function Expired(ps: seq<Parked>, now: int, maxAge: int): (r: seq<Parked>)
    ensures |r| + |Keep(ps, now, maxAge)| == |ps|
  {
    if ps == [] then []
    else Expired(ps[..|ps| - 1], now, maxAge) + (if Young(ps[|ps| - 1], now, maxAge) then [] else [ps[|ps| - 1]])
  }

  // ---- Age cleanup of a store in storage order ----

  ghost predicate ByStoreTime(ps: seq<Parked>) {
    forall i, j | 0 <= i < j < |ps| :: ps[i].storedAt <= ps[j].storedAt
  }

  /** The cleanup at `now` removes the oldest entries of the store and no others. */
  ghost predicate RemovesPrefix(ps: seq<Parked>, now: int, maxAge: int) {
    exists k :: 0 <= k <= |ps| && Keep(ps, now, maxAge) == ps[k..]
  }

  lemma {:induction false} KeepAllYoung(ps: seq<Parked>, now: int, maxAge: int)
    requires forall i | 0 <= i < |ps| :: Young(ps[i], now, maxAge)
    ensures Keep(ps, now, maxAge) == ps
  {
    if ps == [] {
    } else {
      KeepAllYoung(ps[..|ps| - 1], now, maxAge);
    }
  }

  lemma {:induction false} KeepNoneYoung(ps: seq<Parked>, now: int, maxAge: int)
    requires forall i | 0 <= i < |ps| :: !Young(ps[i], now, maxAge)
    ensures Keep(ps, now, maxAge) == []
  {
    if ps == [] {
    } else {
      KeepNoneYoung(ps[..|ps| - 1], now, maxAge);
    }
  }

  lemma {:induction false} KeepSplit(ps: seq<Parked>, qs: seq<Parked>, now: int, maxAge: int)
    ensures Keep(ps + qs, now, maxAge) == Keep(ps, now, maxAge) + Keep(qs, now, maxAge)
  {
    if qs == [] {
      assert ps + qs == ps;
    } else {
      assert (ps + qs)[..|ps + qs| - 1] == ps + qs[..|qs| - 1];
      KeepSplit(ps, qs[..|qs| - 1], now, maxAge);
    }
  }

  /** The oldest entries that have expired come first. */
  lemma {:induction false} FirstYoung(ps: seq<Parked>, now: int, maxAge: int) returns (k: nat)
    ensures k <= |ps|
    ensures forall i | 0 <= i < k :: !Young(ps[i], now, maxAge)
    ensures k < |ps| ==> Young(ps[k], now, maxAge)
  {
    k := 0;
    while k < |ps| && !Young(ps[k], now, maxAge)
      invariant k <= |ps| && forall i | 0 <= i < k :: !Young(ps[i], now, maxAge)
    {
      k := k + 1;
    }
  }

  lemma SortedRemovesPrefix(ps: seq<Parked>, now: int, maxAge: int)
    requires ByStoreTime(ps)
    ensures RemovesPrefix(ps, now, maxAge)
  {
    var k := FirstYoung(ps, now, maxAge);
    KeepNoneYoung(ps[..k], now, maxAge);
    KeepAllYoung(ps[k..], now, maxAge);
    KeepSplit(ps[..k], ps[k..], now, maxAge);
    assert ps == ps[..k] + ps[k..];
  }

  lemma {:induction false} KeepMember(ps: seq<Parked>, now: int, maxAge: int, i: nat)
    requires i < |ps|
    ensures Young(ps[i], now, maxAge) ==> ps[i] in Keep(ps, now, maxAge)
    ensures forall p | p in Keep(ps, now, maxAge) :: Young(p, now, maxAge)
  {
    if i < |ps| - 1 {
      KeepMember(ps[..|ps| - 1], now, maxAge, i);
    } else if |ps| > 1 {
      KeepMember(ps[..|ps| - 1], now, maxAge, 0);
    }
  }

  /** A log is kept exactly while it has been stored for less than the maximal age. */
  lemma {:induction false} KeptIffYoung(ps: seq<Parked>, now: int, maxAge: int, p: Parked)
    ensures p in Keep(ps, now, maxAge) <==> p in ps && now - p.storedAt < maxAge
    ensures p in Expired(ps, now, maxAge) <==> p in ps && now - p.storedAt >= maxAge
  {
    if ps == [] {
    } else {
      KeptIffYoung(ps[..|ps| - 1], now, maxAge, p);
      assert ps == ps[..|ps| - 1] + [ps[|ps| - 1]];
    }
  }

  lemma YoungNotDropped(ps: seq<Parked>, now: int, maxAge: int, i: nat, k: nat)
    requires i < k <= |ps| && Young(ps[i], now, maxAge)
    ensures Keep(ps, now, maxAge) != ps[k..]
  {
    hide Keep;
    if Keep(ps, now, maxAge) == ps[k..] {
      KeepMember(ps, now, maxAge, i);
      forall m | 0 <= m < |ps[k..]| ensures Young(ps[k..][m], now, maxAge) {
        assert ps[k..][m] in Keep(ps, now, maxAge);
      }
      KeepAllYoung(ps[k..], now, maxAge);
      assert ps == ps[..k] + ps[k..];
      KeepSplit(ps[..k], ps[k..], now, maxAge);
      KeepMember(ps[..k], now, maxAge, i);
    }
  }

  /** An entry stored before its elder makes some cleanup take it out of the middle. */
  lemma InversionBreaksPrefix(ps: seq<Parked>, i: nat, j: nat, maxAge: int)
    requires i < j < |ps| && ps[i].storedAt > ps[j].storedAt
    ensures !RemovesPrefix(ps, ps[j].storedAt + maxAge, maxAge)
  {
    var now := ps[j].storedAt + maxAge;
    KeepMember(ps, now, maxAge, j);
    hide Keep;
    forall k | 0 <= k <= |ps| ensures Keep(ps, now, maxAge) != ps[k..] {
      if k <= j {
        assert ps[k..][j - k] == ps[j];
      } else {
        YoungNotDropped(ps, now, maxAge, i, k);
      }
    }
  }

  /** Age cleanup is a FIFO expiry exactly for stores that are in storage order. */
  lemma CleanupTakesPrefixIff(ps: seq<Parked>, maxAge: int)
    ensures (forall now :: RemovesPrefix(ps, now, maxAge)) <==> ByStoreTime(ps)
  {
    if ByStoreTime(ps) {
      forall now ensures RemovesPrefix(ps, now, maxAge) {
        SortedRemovesPrefix(ps, now, maxAge);
      }
    } else {
      var i, j :| 0 <= i < j < |ps| && ps[i].storedAt > ps[j].storedAt;
      InversionBreaksPrefix(ps, i, j, maxAge);
    }
  }

  lemma OneMoreLoss(ps: seq<Parked>, p: Parked)
    ensures Losses(Logs(ps + [p]), CapEviction) == Losses(Logs(ps), CapEviction) + [Loss(p.log, CapEviction)]
  {
  }

  lemma StampNext(logs: seq<Log>, stamps: seq<int>, i: nat)
    requires i < |logs| == |stamps|
    ensures Stamp(logs[..i + 1], stamps[..i + 1]) == Stamp(logs[..i], stamps[..i]) + [Parked(logs[i], stamps[i])]
  {
  }

  // ---- The store ----

  /** `lost` is the ledger of every log the pipeline has given up. */
  class InMemoryLogStorage {
    const maxSize: nat
    const maxAgeMs: int
    var logs: seq<Parked>
    var cleanupTimer: bool
    ghost var lost: seq<Loss>

    constructor (maxSize: nat, maxAgeMs: int)
      ensures this.maxSize == maxSize && this.maxAgeMs == maxAgeMs
      ensures logs == [] && lost == [] && cleanupTimer
    {
      this.maxSize, this.maxAgeMs := maxSize, maxAgeMs;
      logs, lost, cleanupTimer := [], [], true;
    }

    /** Stores one log, dropping the oldest when that makes one too many. */
    method Add(log: Log, now: int)
      modifies this`logs, this`lost
      ensures var all := old(logs) + [Parked(log, now)];
              if |all| > maxSize then logs == all[1..] && lost == old(lost) + [Loss(all[0].log, CapEviction)]
              else logs == all && lost == old(lost)
    {
      logs := logs + [Parked(log, now)];
      if |logs| > maxSize {
        lost := lost + [Loss(logs[0].log, CapEviction)];
        logs := logs[1..];
      }
    }

    /** Stores logs one after the other; of more than fit, the newest stay. */
    method AddAll(added: seq<Log>, stamps: seq<int>)
      requires |added| == |stamps| && |logs| <= maxSize
      modifies this`logs, this`lost
      ensures var all := old(logs) + Stamp(added, stamps);
              var over := Excess(|all|, maxSize);
              && logs == all[over..]
              && lost == old(lost) + Losses(Logs(all[..over]), CapEviction)
      ensures |logs| <= maxSize
    {
      ghost var gone: seq<Parked>, all := [], logs;
      assert Losses(Logs([]), CapEviction) == [];
      for i := 0 to |added|
        invariant gone + logs == all == old(logs) + Stamp(added[..i], stamps[..i])
        invariant |logs| <= maxSize && (gone != [] ==> |logs| == maxSize)
        invariant lost == old(lost) + Losses(Logs(gone), CapEviction)
      {
        hide Logs, Losses, Stamp;
        StampNext(added, stamps, i);
        all := all + [Parked(added[i], stamps[i])];
        ghost var oldest := (logs + [Parked(added[i], stamps[i])])[0];
        Add(added[i], stamps[i]);
        if |all| > |gone| + |logs| {
          OneMoreLoss(gone, oldest);
          gone := gone + [oldest];
        }
      }
      assert added[..|added|] == added && stamps[..|stamps|] == stamps;
      assert all[..|gone|] == gone && all[|gone|..] == logs;
    }

    method Flush() returns (flushed: seq<Log>)
      modifies this`logs
      ensures flushed == Logs(old(logs)) && logs == []
    {
      flushed := Logs(logs);
      logs := [];
    }

    predicate IsEmpty()
      reads this
    {
      logs == []
    }

    method Clear()
      modifies this`logs, this`lost
      ensures logs == [] && lost == old(lost) + Losses(Logs(old(logs)), Cleared)
    {
      lost := lost + Losses(Logs(logs), Cleared);
      logs := [];
    }

    method CleanupOldLogs(now: int)
      modifies this`logs, this`lost
      ensures logs == Keep(old(logs), now, maxAgeMs)
      ensures lost == old(lost) + Losses(Logs(Expired(old(logs), now, maxAgeMs)), AgeExpiry)
    {
      var kept: seq<Parked> := [];
      ghost var gone: seq<Parked> := [];
      for i := 0 to |logs|
        invariant kept == Keep(logs[..i], now, maxAgeMs) && gone == Expired(logs[..i], now, maxAgeMs)
      {
        assert logs[..i + 1][..i] == logs[..i];
        var age := now - logs[i].storedAt;
        if age < maxAgeMs {
          kept := kept + [logs[i]];
        } else {
          gone := gone + [logs[i]];
        }
      }
      assert logs[..|logs|] == logs;
      lost := lost + Losses(Logs(gone), AgeExpiry);
      logs := kept;
    }

    method Stop()
      modifies this`cleanupTimer
      ensures !cleanupTimer
    {
      cleanupTimer := false;
    }
  }
}
