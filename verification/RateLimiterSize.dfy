/** How large the bounded map of token buckets may grow. */
module RateLimiterSize {
  import opened Common
  import opened KeyedRateLimiter
  import opened RateLimiterEviction
  import opened TokenBucket

  /** When the newest entry was inserted. */
  function LastInsertion(c: Config, log: seq<Call>): real
    requires c.limit > 0.0
  {
    if log == [] then 0.0
    else
      var n := |log| - 1;
      if n == 0 || log[n].key !in Replay(c, log[..n]) then log[n].at else LastInsertion(c, log[..n])
  }

  /** The last call of a history, against what came before it. */
  lemma LastCall(c: Config, log: seq<Call>)
    requires c.limit > 0.0 && log != []
    ensures var n := |log| - 1;
      && Replay(c, log) == Step(c, Replay(c, log[..n]), log[n]).0
      && LastInsertion(c, log)
          == if log[n].key !in Replay(c, log[..n]) then log[n].at else LastInsertion(c, log[..n])
  {
    hide Step;
    assert |log| == 1 ==> log[..0] == [];
  }

  lemma {:induction false} InsertedByNow(c: Config, log: seq<Call>, now: real)
    requires c.limit > 0.0 && Monotone(log) && log != [] && log[|log| - 1].at <= now
    ensures LastInsertion(c, log) <= now
  {
    hide Replay, Step, LastInsertion;
    LastCall(c, log);
    var n := |log| - 1;
    if n > 0 {
      InsertedByNow(c, log[..n], now);
    } else {
      assert log[..0] == [] && Replay(c, log[..0]) == map[] by { NothingYet(c); }
    }
  }

  lemma NothingYet(c: Config)
    requires c.limit > 0.0
    ensures Replay(c, []) == map[]
  {}

  /** What one call does to the keys and to when they were last seen. */
  lemma StepKeys(c: Config, m: Table, call: Call)
    requires c.limit > 0.0
    ensures var m' := Step(c, m, call).0;
      && call.key in m' && m'[call.key].lastSeen == call.at
      && (forall k | k in m' && k != call.key :: k in m && m'[k].lastSeen == m[k].lastSeen)
      && (forall k | k in m && k !in m' :: call.key !in m && Stale(m[k], call.at))
      && (call.key !in m && |m| >= MAX_TRACKED_KEYS ==>
            forall k | k in m' && k != call.key :: m[k].lastSeen >= call.at - STALE_KEY_WINDOW)
      && |m'| <= if call.key in m then |m| else |m| + 1
  {
    hide Take;
    var m' := Step(c, m, call).0;
    assert m'.Keys <= m.Keys + {call.key};
    SubsetSize(m'.Keys, m.Keys + {call.key});
    if call.key in m {
      assert m.Keys + {call.key} == m.Keys;
    }
  }

  predicate WithinCapOrFresh(m: Table, inserted: real) {
    |m| <= MAX_TRACKED_KEYS || forall k | k in m :: m[k].lastSeen >= inserted - STALE_KEY_WINDOW
  }

  lemma StepStaysBounded(c: Config, m: Table, call: Call, inserted: real)
    requires c.limit > 0.0 && WithinCapOrFresh(m, inserted) && (call.key in m ==> inserted <= call.at)
    ensures WithinCapOrFresh(Step(c, m, call).0, if call.key !in m then call.at else inserted)
  {
    hide Step;
    StepKeys(c, m, call);
  }

  /** The map is within its cap, or nothing in it was already stale when the newest key came in. */
  lemma {:induction false} MapIsBounded(c: Config, log: seq<Call>)
    requires c.limit > 0.0 && Monotone(log)
    ensures var m := Replay(c, log);
      |m| <= 10_000 || forall k | k in m :: m[k].lastSeen >= LastInsertion(c, log) - 600.0
  {
    hide Step, Replay, LastInsertion;
    if log == [] {
      NothingYet(c);
    } else {
      var n := |log| - 1;
      MapIsBounded(c, log[..n]);
      LastCall(c, log);
      if n > 0 {
        InsertedByNow(c, log[..n], log[n].at);
      } else {
        NothingYet(c);
        assert log[..n] == [];
      }
      StepStaysBounded(c, Replay(c, log[..n]), log[n], LastInsertion(c, log[..n]));
    }
  }

  /** A key called within the window before the newest insertion is still there. */
  lemma {:induction false} RecentIsKept(c: Config, log: seq<Call>, i: nat)
    requires c.limit > 0.0 && Monotone(log) && i < |log|
    requires log[i].at >= LastInsertion(c, log) - STALE_KEY_WINDOW
    ensures var m := Replay(c, log); log[i].key in m && m[log[i].key].lastSeen >= log[i].at
  {
    hide Step, Replay, LastInsertion;
    var n := |log| - 1;
    LastCall(c, log);
    StepKeys(c, Replay(c, log[..n]), log[n]);
    if i < n {
      InsertedByNow(c, log[..n], log[n].at);
      RecentIsKept(c, log[..n], i);
    }
  }

  /** Every entry was last seen by a call of its key. */
  lemma {:induction false} KeptWasCalled(c: Config, log: seq<Call>, key: string) returns (i: nat)
    requires c.limit > 0.0 && key in Replay(c, log)
    ensures i < |log| && log[i] == Call(key, Replay(c, log)[key].lastSeen)
  {
    hide Step, Replay;
    if log == [] {
      NothingYet(c);
      assert false;
    } else {
      var n := |log| - 1;
      LastCall(c, log);
      StepKeys(c, Replay(c, log[..n]), log[n]);
      if key == log[n].key {
        return n;
      }
      i := KeptWasCalled(c, log[..n], key);
    }
  }

  function RecentKeys(log: seq<Call>, since: real): set<string> {
    set i | 0 <= i < |log| && log[i].at >= since :: log[i].key
  }

  /** Main result: the map exceeds its cap exactly when more keys than that were called within
      the stale window before the newest key came in. */
  lemma MapExceedsCapIff(c: Config, log: seq<Call>)
    requires c.limit > 0.0 && Monotone(log)
    ensures |Replay(c, log)| > 10_000 <==> |RecentKeys(log, LastInsertion(c, log) - 600.0)| > 10_000
  {
    hide Step, Replay, LastInsertion;
    var m, since := Replay(c, log), LastInsertion(c, log) - STALE_KEY_WINDOW;
    var recent := RecentKeys(log, since);
    forall key | key in recent
      ensures key in m
    {
      var i :| 0 <= i < |log| && log[i].at >= since && log[i].key == key;
      RecentIsKept(c, log, i);
    }
    SubsetSize(recent, m.Keys);
    if |m| > MAX_TRACKED_KEYS {
      MapIsBounded(c, log);
      forall key | key in m
        ensures key in recent
      {
        var i := KeptWasCalled(c, log, key);
        assert log[i].at >= since;
      }
      SubsetSize(m.Keys, recent);
      assert |m.Keys| == |m|;
    }
  }

  // The same question over a whole history, asked of the calls alone.

  /** More keys than the cap were called within the stale window before call n - 1, or at it. */
  predicate Crowded(log: seq<Call>, n: nat)
    requires 0 < n <= |log|
  {
    |RecentKeys(log[..n], log[n - 1].at - 600.0)| > 10_000
  }

  /** The call that first takes the map over its cap inserts a key. */
  lemma {:induction false} FirstExcess(c: Config, log: seq<Call>, n: nat) returns (k: nat)
    requires c.limit > 0.0 && n <= |log| && |Replay(c, log[..n])| > MAX_TRACKED_KEYS
    ensures 0 < k <= n && |Replay(c, log[..k])| > MAX_TRACKED_KEYS
    ensures LastInsertion(c, log[..k]) == log[k - 1].at
  {
    hide Replay, Step, LastInsertion;
    NothingYet(c);
    assert log[..0] == [];
    k := n;
    var m := Replay(c, log[..n - 1]);
    assert log[..n][..n - 1] == log[..n - 1];
    LastCall(c, log[..n]);
    if |m| > MAX_TRACKED_KEYS {
      k := FirstExcess(c, log, n - 1);
    } else {
      StepKeys(c, m, log[n - 1]);
    }
  }

  lemma CrowdedExceeds(c: Config, log: seq<Call>, n: nat)
    requires c.limit > 0.0 && Monotone(log) && 0 < n <= |log| && Crowded(log, n)
    ensures |Replay(c, log[..n])| > MAX_TRACKED_KEYS
  {
    MonotonePrefix(log, n);
    var since, until := LastInsertion(c, log[..n]) - STALE_KEY_WINDOW, log[n - 1].at - STALE_KEY_WINDOW;
    assert since <= until && RecentKeys(log[..n], until) <= RecentKeys(log[..n], since) by {
      hide Replay, LastInsertion;
      InsertedByNow(c, log[..n], log[n - 1].at);
    }
    hide Replay, LastInsertion, RecentKeys;
    SubsetSize(RecentKeys(log[..n], until), RecentKeys(log[..n], since));
    MapExceedsCapIff(c, log[..n]);
  }

  /** Main result: along a history the map exceeds its cap at some point exactly when at some
      call more keys than that have been called within the stale window. */
  lemma MapEverExceedsIff(c: Config, log: seq<Call>)
    requires c.limit > 0.0 && Monotone(log)
    ensures (exists n | 0 <= n <= |log| :: |Replay(c, log[..n])| > 10_000)
       <==> (exists n | 0 < n <= |log| :: Crowded(log, n))
  {
    hide Replay, LastInsertion, RecentKeys;
    if n :| 0 <= n <= |log| && |Replay(c, log[..n])| > MAX_TRACKED_KEYS {
      var k := FirstExcess(c, log, n);
      MonotonePrefix(log, k);
      MapExceedsCapIff(c, log[..k]);
      assert Crowded(log, k);
    }
    if n :| 0 < n <= |log| && Crowded(log, n) {
      CrowdedExceeds(c, log, n);
    }
  }

  // The cap itself is not a bound: the sweep only drops stale entries and inserts anyway.

  function FillerKeys(n: nat): (keys: set<string>)
    ensures |keys| == n && forall key | key in keys :: |key| <= n
  {
    if n == 0 then {} else FillerKeys(n - 1) + {Filler(n - 1)}
  }

  lemma {:induction false} FillerAt(n: nat, key: string) returns (i: nat)
    requires key in FillerKeys(n)
    ensures i < n && key == Filler(i)
  {
    i := n - 1;
    if key != Filler(n - 1) {
      i := FillerAt(n - 1, key);
    }
  }

  /** Calls at one instant, each of a key of its own, are all recent. */
  lemma FillersAreRecent(n: nat, since: real)
    requires since <= 0.0
    ensures |RecentKeys(Fillers(n, 0.0), since)| >= n
  {
    var log := Fillers(n, 0.0);
    forall key | key in FillerKeys(n)
      ensures key in RecentKeys(log, since)
    {
      var i := FillerAt(n, key);
      assert log[i] == Call(key, 0.0);
    }
    hide FillerKeys, RecentKeys;
    SubsetSize(FillerKeys(n), RecentKeys(log, since));
  }

  lemma MapCanOutgrowItsCap(c: Config)
    requires c.limit > 0.0
    ensures exists log :: Monotone(log) && |Replay(c, log)| > 10_000
  {
    hide Replay, LastInsertion, RecentKeys;
    var log := Fillers(MAX_TRACKED_KEYS + 1, 0.0);
    assert Monotone(log);
    InsertedByNow(c, log, 0.0);
    FillersAreRecent(MAX_TRACKED_KEYS + 1, LastInsertion(c, log) - STALE_KEY_WINDOW);
    MapExceedsCapIff(c, log);
  }
}
