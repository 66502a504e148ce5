/** How long a denied caller is told to wait, and when that is the truth. */
module RateLimiterWaits {
  import opened KeyedRateLimiter
  import opened RateLimiterAnswers
  import opened RateLimiterConditions
  import opened RateLimiterEviction
  import opened TokenBucket

  /** No call on key among log[lo..hi] was granted. */
  predicate NoGrant(log: seq<Call>, answers: seq<Answer>, key: string, lo: nat, hi: nat)
    requires lo <= hi <= |log| == |answers|
  {
    forall m | lo <= m < hi && log[m].key == key :: !answers[m].ok
  }

  lemma NoGrantBefore(log: seq<Call>, answers: seq<Answer>, key: string, lo: nat, hi: nat)
    requires lo < hi <= |log| == |answers| && NoGrant(log, answers, key, lo, hi)
    ensures NoGrant(log, answers, key, lo, hi - 1) && (log[hi - 1].key == key ==> !answers[hi - 1].ok)
  {}

  lemma SelfLags(c: Config, b: Bucket)
    requires c.limit > 0.0 && Sound(c, b)
    ensures Lags(c, b, b)
  {
    NoRefill(c);
  }

  /** After a denial and until a grant, a call is granted exactly once the wait is over. */
  ghost predicate WaitsTight(c: Config)
    requires c.limit > 0.0
  {
    forall log: seq<Call>, i: nat, j: nat
      | Monotone(log) && i < j < |log| && log[j].key == log[i].key && NoGrant(log, Answers(c, log), log[i].key, i, j) ::
      Answers(c, log)[j].ok <==> log[j].at >= log[i].at + Answers(c, log)[i].retryAfter
  }

  /** Every bucket of the map is one some calls can produce, as old as when it was last seen. */
  ghost predicate TableSound(c: Config, m: Table, now: real) {
    forall k | k in m :: Sound(c, m[k].bucket) && m[k].bucket.last == m[k].lastSeen <= now
  }

  lemma StepSound(c: Config, m: Table, call: Call, now: real)
    requires c.limit > 0.0 && c.burst >= 1 && TableSound(c, m, now) && now <= call.at
    ensures TableSound(c, Step(c, m, call).0, call.at)
  {
    hide TokensFromDuration, DurationFromTokens, Take, Step, Level;
    StepOwn(c, m, call);
    NoRefill(c);
    TakeByLevel(c, if call.key in m then m[call.key].bucket else Full(c, call.at), call.at);
  }

  lemma NothingSound(c: Config, now: real)
    requires c.limit > 0.0
    ensures Replay(c, []) == map[] && TableSound(c, map[], now)
  {}

  lemma {:induction false} ReplaySound(c: Config, log: seq<Call>, n: nat, now: real)
    requires c.limit > 0.0 && c.burst >= 1 && Monotone(log) && n <= |log| && (n > 0 ==> log[n - 1].at <= now)
    ensures TableSound(c, Replay(c, log[..n]), now)
  {
    if n == 0 {
      assert log[..0] == [];
      NothingSound(c, now);
    } else {
      assert n > 1 ==> log[n - 2].at <= log[n - 1].at;
      hide *;
      ReplaySound(c, log, n - 1, log[n - 1].at);
      BothSteps(c, log, n - 1);
      StepSound(c, Replay(c, log[..n - 1]), log[n - 1], log[n - 1].at);
      SoundLater(c, Replay(c, log[..n]), log[n - 1].at, now);
    }
  }

  lemma SoundLater(c: Config, m: Table, now: real, later: real)
    requires TableSound(c, m, now) && now <= later
    ensures TableSound(c, m, later)
  {}

  lemma SoundEntry(c: Config, m: Table, key: string, now: real)
    requires TableSound(c, m, now) && key in m
    ensures Sound(c, m[key].bucket) && m[key].bucket.last == m[key].lastSeen <= now
  {}

  lemma FullGrants(c: Config, t: real)
    requires c.limit > 0.0 && c.burst >= 1
    ensures Take(c, Full(c, t), t).1.ok
  {
    hide TokensFromDuration, DurationFromTokens, Take;
    NoRefill(c);
    TakeByLevel(c, Full(c, t), t);
  }

  /** Since call i was denied: the bucket lags behind what it left, or was swept a window later. */
  ghost predicate Waits(c: Config, m: Table, key: string, b: Bucket, since: real, now: real) {
    if key in m then Lags(c, m[key].bucket, b) && m[key].lastSeen >= since && m[key].bucket.last <= now
    else now > since + STALE_KEY_WINDOW
  }

  lemma OwnCallWaits(c: Config, m: Table, call: Call, b: Bucket, since: real, now: real)
    requires c.limit > 0.0 && c.burst >= 1 && Waits(c, m, call.key, b, since, now) && since <= now <= call.at
    requires !Step(c, m, call).1.ok
    ensures Waits(c, Step(c, m, call).0, call.key, b, since, call.at)
  {
    hide Step, Take, Level, Lags;
    StepOwn(c, m, call);
    FullGrants(c, call.at);
    if call.key in m {
      LaggingTake(c, m[call.key].bucket, b, call.at);
      LagsIsSound(c, m[call.key].bucket, b);
      TakeByLevel(c, m[call.key].bucket, call.at);
    }
  }

  lemma OtherCallWaits(c: Config, m: Table, call: Call, key: string, b: Bucket, since: real, now: real)
    requires c.limit > 0.0 && call.key != key && Waits(c, m, key, b, since, now) && now <= call.at
    ensures Waits(c, Step(c, m, call).0, key, b, since, call.at)
  {
    hide Step, Take, Lags;
    StepOwn(c, m, call);
  }

  /** Right after the denial the bucket is what it left. */
  lemma WaitStarts(c: Config, log: seq<Call>, i: nat)
    requires c.limit > 0.0 && c.burst >= 1 && Monotone(log) && i < |log|
    ensures var m, key := Replay(c, log[..i + 1]), log[i].key;
      key in m && Waits(c, m, key, m[key].bucket, log[i].at, log[i].at)
  {
    var m, key := Replay(c, log[..i + 1]), log[i].key;
    hide *;
    ReplaySound(c, log, i + 1, log[i].at);
    BothSteps(c, log, i);
    StepOwn(c, Replay(c, log[..i]), log[i]);
    SoundEntry(c, m, key, log[i].at);
    SelfLags(c, m[key].bucket);
    SelfWaits(c, m, key, log[i].at);
  }

  lemma SelfWaits(c: Config, m: Table, key: string, now: real)
    requires key in m && m[key].lastSeen == m[key].bucket.last == now && Lags(c, m[key].bucket, m[key].bucket)
    ensures Waits(c, m, key, m[key].bucket, now, now)
  {
    hide Lags;
  }

  lemma {:induction false} DeniedWaits(c: Config, log: seq<Call>, i: nat, n: nat)
    requires c.limit > 0.0 && c.burst >= 1 && Monotone(log) && i < n <= |log|
    requires NoGrant(log, Answers(c, log), log[i].key, i, n)
    ensures log[i].key in Replay(c, log[..i + 1])
    ensures Waits(c, Replay(c, log[..n]), log[i].key, Replay(c, log[..i + 1])[log[i].key].bucket, log[i].at, log[n - 1].at)
  {
    var key, m, call := log[i].key, Replay(c, log[..n - 1]), log[n - 1];
    assert n - 1 > i ==> log[i].at <= log[n - 2].at <= call.at;
    hide *;
    WaitStarts(c, log, i);
    if n - 1 > i {
      NoGrantBefore(log, Answers(c, log), key, i, n);
      DeniedWaits(c, log, i, n - 1);
      BothSteps(c, log, n - 1);
      var b := Replay(c, log[..i + 1])[key].bucket;
      if call.key == key {
        OwnCallWaits(c, m, call, b, log[i].at, log[n - 2].at);
      } else {
        OtherCallWaits(c, m, call, key, b, log[i].at, log[n - 2].at);
      }
    }
  }

  /** A waiting key is granted exactly when the wait its denial reported is over. */
  lemma WaitEnds(c: Config, m: Table, b: Bucket, a: Answer, since: real, call: Call, now: real)
    requires c.limit > 0.0 && c.burst >= 1 && TokensFromDuration(c, STALE_KEY_WINDOW) >= 1.0
    requires Waits(c, m, call.key, b, since, now) && since <= now <= call.at
    requires Sound(c, b) && b.last == since && b.tokens < 1.0
    requires TokensFromDuration(c, a.retryAfter) == 1.0 - b.tokens
    ensures Step(c, m, call).1.ok <==> call.at >= since + a.retryAfter
  {
    hide TokensFromDuration, DurationFromTokens, Take, Step, Lags;
    StepOwn(c, m, call);
    if call.key in m {
      LaggingTake(c, m[call.key].bucket, b, call.at);
      TakeByLevel(c, b, call.at);
      RefillMonotone(c, a.retryAfter, call.at - since);
    } else {
      FullGrants(c, call.at);
      RefillMonotone(c, a.retryAfter, STALE_KEY_WINDOW);
    }
  }

  /** What a denial leaves and reports. */
  lemma DenialLeaves(c: Config, log: seq<Call>, i: nat)
    requires c.limit > 0.0 && c.burst >= 1 && Monotone(log) && i < |log| && !Answers(c, log)[i].ok
    ensures log[i].key in Replay(c, log[..i + 1])
    ensures var b := Replay(c, log[..i + 1])[log[i].key].bucket;
      && Sound(c, b) && b.last == log[i].at && b.tokens < 1.0
      && TokensFromDuration(c, Answers(c, log)[i].retryAfter) == 1.0 - b.tokens
  {
    var m, call := Replay(c, log[..i]), log[i];
    assert i > 0 ==> log[i - 1].at <= call.at;
    hide TokensFromDuration, DurationFromTokens, Take, Step, Replay, Answers, Monotone, Level, TableSound;
    ReplaySound(c, log, i, call.at);
    BothSteps(c, log, i);
    StepOwn(c, m, call);
    NoRefill(c);
    if call.key in m {
      SoundEntry(c, m, call.key, call.at);
    }
    TakeByLevel(c, if call.key in m then m[call.key].bucket else Full(c, call.at), call.at);
  }

  /** Main result: where a token comes back within the window, a call after a denial with delay
      d, and until the key is granted again, is denied before now + d and granted from then on. */
  lemma RetryAfterIsTight(c: Config, log: seq<Call>, i: nat, j: nat)
    requires c.limit > 0.0 && c.burst >= 1 && c.limit * 600.0 >= 1.0 && Monotone(log)
    requires i < j < |log| && log[j].key == log[i].key && NoGrant(log, Answers(c, log), log[i].key, i, j)
    ensures Answers(c, log)[j].ok <==> log[j].at >= log[i].at + Answers(c, log)[i].retryAfter
  {
    assert TokensFromDuration(c, STALE_KEY_WINDOW) >= 1.0 by { RefillOf(c, STALE_KEY_WINDOW); }
    assert log[i].at <= log[j - 1].at <= log[j].at;
    assert !Answers(c, log)[i].ok;
    hide *;
    DenialLeaves(c, log, i);
    DeniedWaits(c, log, i, j);
    BothSteps(c, log, j);
    var b := Replay(c, log[..i + 1])[log[i].key].bucket;
    WaitEnds(c, Replay(c, log[..j]), b, Answers(c, log)[i], log[i].at, log[j], log[j - 1].at);
  }

  /** A denial, then a sweep before its wait is over. */
  function EarlySpray(burst: nat, t: real): seq<Call> {
    Repeat(Call(VICTIM, 0.0), burst + 1) + Fillers(MAX_TRACKED_KEYS, 0.0)
      + [Call(Filler(MAX_TRACKED_KEYS), t)] + [Call(VICTIM, t)]
  }

  lemma EarlySprayShape(burst: nat, t: real) returns (k: nat)
    requires t >= 0.0
    ensures var log := EarlySpray(burst, t);
      && k == burst + 1 + MAX_TRACKED_KEYS > burst && |log| == k + 2 && Monotone(log)
      && log[..burst] == Repeat(Call(VICTIM, 0.0), burst) && log[burst] == Call(VICTIM, 0.0)
      && log[..k] == log[..burst + 1] + Fillers(MAX_TRACKED_KEYS, 0.0)
      && (forall i | burst < i < k + 1 :: log[i].key != VICTIM)
      && log[k] == Call(Filler(MAX_TRACKED_KEYS), t) && log[k + 1] == Call(VICTIM, t)
  {
    k := burst + 1 + MAX_TRACKED_KEYS;
    var first := Repeat(Call(VICTIM, 0.0), burst + 1);
    var filled := first + Fillers(MAX_TRACKED_KEYS, 0.0);
    var log := EarlySpray(burst, t);
    assert log == filled + [Call(Filler(MAX_TRACKED_KEYS), t), Call(VICTIM, t)];
    assert log[..|filled|] == filled && log[..burst + 1] == first;
    assert forall i | 0 <= i < |log| :: log[i].at == if i < |filled| then 0.0 else t;
  }

  /** One more call on the drained bucket is denied, and waits for a whole token. */
  lemma DrainedDenial(c: Config, log: seq<Call>)
    requires c.limit > 0.0 && c.burst >= 1 && |log| > c.burst && log[c.burst] == Call(VICTIM, 0.0)
    requires log[..c.burst] == Repeat(Call(VICTIM, 0.0), c.burst)
    ensures var a := Answers(c, log)[c.burst]; !a.ok && TokensFromDuration(c, a.retryAfter) == 1.0
    ensures var m := Replay(c, log[..c.burst + 1]); m.Keys == {VICTIM} && m[VICTIM].lastSeen == 0.0
  {
    hide TokensFromDuration, DurationFromTokens, Take, Step, Replay, Answers, Repeat;
    FirstSpend(c);
    BothSteps(c, log, c.burst);
    StepOwn(c, Replay(c, log[..c.burst]), log[c.burst]);
    NoRefill(c);
    TakeByLevel(c, Bucket(0.0, 0.0), 0.0);
    var m := Replay(c, log[..c.burst + 1]);
    assert forall k | k in m :: k == VICTIM;
  }

  /** A moment past the window at which a spent bucket is still short of a token. */
  lemma ShortOfOne(c: Config) returns (t: real)
    requires c.limit > 0.0 && TokensFromDuration(c, STALE_KEY_WINDOW) < 1.0
    ensures t > STALE_KEY_WINDOW && t >= 0.0 && TokensFromDuration(c, t) < 1.0
  {
    hide TokensFromDuration, DurationFromTokens;
    var goal := (1.0 + TokensFromDuration(c, STALE_KEY_WINDOW)) / 2.0;
    t := DurationFromTokens(c, goal);
    WaitRefills(c, goal);
    RefillMonotone(c, t, STALE_KEY_WINDOW);
  }

  /** The newcomer sweeps the drained bucket, so the last call finds a fresh one. */
  lemma EarlyGrant(c: Config, log: seq<Call>, k: nat, t: real)
    requires c.limit > 0.0 && c.burst >= 1 && t > STALE_KEY_WINDOW && k + 1 < |log|
    requires |Replay(c, log[..k])| > MAX_TRACKED_KEYS
    requires forall key | key in Replay(c, log[..k]) :: |key| <= MAX_TRACKED_KEYS && Replay(c, log[..k])[key].lastSeen == 0.0
    requires log[k] == Call(Filler(MAX_TRACKED_KEYS), t) && log[k + 1] == Call(VICTIM, t)
    ensures Answers(c, log)[k + 1].ok
  {
    hide TokensFromDuration, DurationFromTokens, Take, Step, Replay, Answers, Full, Filler;
    BothSteps(c, log, k);
    NewcomerSweeps(c, Replay(c, log[..k]), log[k]);
    BothSteps(c, log, k + 1);
    StepOwn(c, Replay(c, log[..k + 1]), log[k + 1]);
    FullGrants(c, t);
    assert VICTIM !in Replay(c, log[..k + 1]);
  }

  lemma OnlyDenied(log: seq<Call>, answers: seq<Answer>, key: string, n: nat, k: nat)
    requires n < k <= |log| == |answers| && !answers[n].ok && forall i | n < i < k :: log[i].key != key
    ensures NoGrant(log, answers, key, n, k)
  {}

  lemma WaitsTightAt(c: Config, log: seq<Call>, i: nat, j: nat)
    requires c.limit > 0.0 && WaitsTight(c)
    requires Monotone(log) && i < j < |log| && log[j].key == log[i].key && NoGrant(log, Answers(c, log), log[i].key, i, j)
    ensures Answers(c, log)[j].ok <==> log[j].at >= log[i].at + Answers(c, log)[i].retryAfter
  {
    hide Monotone, NoGrant, Answers;
  }

  lemma SweptTooEarly(c: Config)
    requires c.limit > 0.0 && c.burst >= 1 && TokensFromDuration(c, STALE_KEY_WINDOW) < 1.0
    ensures !WaitsTight(c)
  {
    hide *;
    var t := ShortOfOne(c);
    var n, log := c.burst, EarlySpray(c.burst, t);
    var k := EarlySprayShape(n, t);
    DrainedDenial(c, log);
    FillersPileUp(c, log[..n + 1], k - n - 1);
    EarlyGrant(c, log, k, t);
    RefillMonotone(c, Answers(c, log)[n].retryAfter, t);
    OnlyDenied(log, Answers(c, log), VICTIM, n, k + 1);
    if WaitsTight(c) {
      WaitsTightAt(c, log, n, k + 1);
    }
  }

  /** Without a burst every call is denied and told to wait for nothing. */
  lemma NeverTightWithoutBurst(c: Config)
    requires c.limit > 0.0 && c.burst < 1
    ensures !WaitsTight(c)
  {
    hide TokensFromDuration, DurationFromTokens;
    var call := Call(VICTIM, 0.0);
    var log := [call, call];
    assert forall i | 0 <= i < 2 :: Answers(c, log)[i] == Answer(0.0, false);
    hide Answers;
    assert NoGrant(log, Answers(c, log), VICTIM, 0, 1);
    if WaitsTight(c) {
      WaitsTightAt(c, log, 0, 1);
    }
  }

  /** Main result: the reported wait is tight exactly when there is a burst and one token comes
      back within the window, which asks less than a whole burst. */
  lemma RetryAfterIsTightIff(c: Config)
    requires c.limit > 0.0
    ensures WaitsTight(c) <==> c.burst >= 1 && c.limit * 600.0 >= 1.0
  {
    RefillOf(c, STALE_KEY_WINDOW);
    hide TokensFromDuration, Answers, NoGrant, Monotone;
    if c.burst < 1 {
      NeverTightWithoutBurst(c);
    } else if c.limit * 600.0 >= 1.0 {
      forall log: seq<Call>, i: nat, j: nat
        | Monotone(log) && i < j < |log| && log[j].key == log[i].key && NoGrant(log, Answers(c, log), log[i].key, i, j)
        ensures Answers(c, log)[j].ok <==> log[j].at >= log[i].at + Answers(c, log)[i].retryAfter
      {
        RetryAfterIsTight(c, log, i, j);
      }
    } else {
      SweptTooEarly(c);
    }
  }
}
