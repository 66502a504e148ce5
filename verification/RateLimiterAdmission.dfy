/** Which calls the limiter grants, told from the calls alone. */
module RateLimiterAdmission {
  import opened Common
  import opened KeyedRateLimiter
  import opened RateLimiterEviction
  import opened RateLimiterConditions
  import opened RateLimiterSize
  import opened TokenBucket

  // On the map that never forgets: the limiter grants whatever the rate allows.

  /** Spending x more tokens on key at time t would keep every interval since one of the first n
      calls on it within the burst and the refill. */
  ghost predicate Affords(c: Config, log: seq<Call>, answers: seq<Answer>, key: string, n: nat, t: real, x: real)
    requires n <= |log| == |answers|
  {
    && x <= c.burst as real
    && forall i | 0 <= i < n && log[i].key == key ::
      Granted(log, answers, key, i, n) as real + x <= c.burst as real + TokensFromDuration(c, t - log[i].at)
  }

  /** How one call changes what its key may still spend at a later time. */
  lemma OwnStepLeaves(c: Config, r: map<string, Bucket>, call: Call, t: real)
    requires c.limit > 0.0 && c.burst >= 1 && AllSound(c, r, call.at) && call.at <= t
    ensures var (r', a) := KeptStep(c, r, call);
      var after := Available(c, r, call.key, call.at) - (if a.ok then 1.0 else 0.0) + TokensFromDuration(c, t - call.at);
      Available(c, r', call.key, t) == if after > c.burst as real then c.burst as real else after
  {
    hide TokensFromDuration, DurationFromTokens, Take;
    var b := if call.key in r then r[call.key] else Full(c, call.at);
    NoRefill(c);
    TakeByLevel(c, b, call.at);
    KeptStepOwn(c, r, call);
  }

  lemma OtherStepLeaves(c: Config, r: map<string, Bucket>, call: Call, key: string, t: real)
    requires c.limit > 0.0 && call.key != key
    ensures Available(c, KeptStep(c, r, call).0, key, t) == Available(c, r, key, t)
  {
    hide TokensFromDuration, Take, Level, KeptStep;
    KeptStepOwn(c, r, call);
  }

  /** One more granted call takes one token off what every interval affords. */
  lemma AffordsOwn(c: Config, log: seq<Call>, answers: seq<Answer>, key: string, n: nat, t: real, x: real)
    requires n < |log| == |answers| && log[n].key == key && log[n].at <= t
    ensures var y := x + (if answers[n].ok then 1.0 else 0.0) - TokensFromDuration(c, t - log[n].at);
      Affords(c, log, answers, key, n + 1, t, x) <==> x <= c.burst as real && Affords(c, log, answers, key, n, log[n].at, y)
  {
    hide TokensFromDuration;
    var spent := if answers[n].ok then 1.0 else 0.0;
    var y := x + spent - TokensFromDuration(c, t - log[n].at);
    forall i | 0 <= i < n
      ensures Granted(log, answers, key, i, n + 1) as real == Granted(log, answers, key, i, n) as real + spent
      ensures TokensFromDuration(c, t - log[i].at)
        == TokensFromDuration(c, t - log[n].at) + TokensFromDuration(c, log[n].at - log[i].at)
    {
      RefillBetween(c, log[n].at - log[i].at, t - log[i].at);
    }
    assert Granted(log, answers, key, n, n + 1) as real == spent;
    hide Granted;
  }

  lemma AffordsOther(c: Config, log: seq<Call>, answers: seq<Answer>, key: string, n: nat, t: real, x: real)
    requires n < |log| == |answers| && log[n].key != key
    ensures Affords(c, log, answers, key, n + 1, t, x) <==> Affords(c, log, answers, key, n, t, x)
  {
    hide TokensFromDuration;
    forall i | 0 <= i < n
      ensures Granted(log, answers, key, i, n + 1) == Granted(log, answers, key, i, n)
    {}
    hide Granted;
  }

  lemma NothingSpent(c: Config, log: seq<Call>, key: string, t: real, x: real)
    requires c.limit > 0.0
    ensures Available(c, KeptReplay(c, log[..0]), key, t) >= x <==> Affords(c, log, KeptAnswers(c, log), key, 0, t, x)
  {
    hide TokensFromDuration;
    assert log[..0] == [];
  }

  lemma InOrder(log: seq<Call>, n: nat)
    requires Monotone(log) && 0 < n <= |log|
    ensures n > 1 ==> log[n - 2].at <= log[n - 1].at
  {}

  /** The allowance of a key is the most its intervals afford. */
  lemma {:induction false} AvailableIff(c: Config, log: seq<Call>, key: string, n: nat, t: real, x: real)
    requires c.limit > 0.0 && c.burst >= 1 && Monotone(log) && n <= |log| && (n > 0 ==> log[n - 1].at <= t)
    ensures Available(c, KeptReplay(c, log[..n]), key, t) >= x <==> Affords(c, log, KeptAnswers(c, log), key, n, t, x)
    decreases n
  {
    hide *;
    if n == 0 {
      NothingSpent(c, log, key, t, x);
    } else {
      var call, answers := log[n - 1], KeptAnswers(c, log);
      InOrder(log, n);
      KeptLater(c, log, n - 1);
      var r := KeptReplay(c, log[..n - 1]);
      if call.key == key {
        var y := x + (if answers[n - 1].ok then 1.0 else 0.0) - TokensFromDuration(c, t - call.at);
        OwnStepLeaves(c, r, call, t);
        AvailableIff(c, log, key, n - 1, call.at, y);
        AffordsOwn(c, log, answers, key, n - 1, t, x);
      } else {
        OtherStepLeaves(c, r, call, key, t);
        AvailableIff(c, log, key, n - 1, t, x);
        AffordsOther(c, log, answers, key, n - 1, t, x);
      }
    }
  }

  /** The map before a call, and the call itself. */
  lemma KeptLater(c: Config, log: seq<Call>, n: nat)
    requires c.limit > 0.0 && c.burst >= 1 && Monotone(log) && n < |log|
    ensures AllSound(c, KeptReplay(c, log[..n]), log[n].at)
    ensures KeptReplay(c, log[..n + 1]) == KeptStep(c, KeptReplay(c, log[..n]), log[n]).0
    ensures KeptAnswers(c, log)[n] == KeptStep(c, KeptReplay(c, log[..n]), log[n]).1
  {
    MonotonePrefix(log, n);
    hide TokensFromDuration, KeptStep, KeptReplay, AllSound;
    KeptSound(c, log[..n], log[n].at);
    BothSteps(c, log, n);
  }

  /** What a call is told, by the allowance it finds. */
  lemma StepByAllowance(c: Config, r: map<string, Bucket>, call: Call)
    requires c.limit > 0.0 && c.burst >= 1 && AllSound(c, r, call.at)
    ensures var a, left := KeptStep(c, r, call).1, Available(c, r, call.key, call.at);
      && (a.ok <==> left >= 1.0) && left <= c.burst as real
      && (if a.ok then a.retryAfter == 0.0 else TokensFromDuration(c, a.retryAfter) == 1.0 - left)
  {
    var b := if call.key in r then r[call.key] else Full(c, call.at);
    hide TokensFromDuration, DurationFromTokens, Take;
    NoRefill(c);
    TakeByLevel(c, b, call.at);
    KeptStepOwn(c, r, call);
  }

  /** After d seconds more, a grant would keep every interval since an earlier call of call j's
      key within burst plus limit times its length. */
  ghost predicate WithinRate(c: Config, log: seq<Call>, answers: seq<Answer>, j: nat, d: real)
    requires j < |log| == |answers|
  {
    forall i | 0 <= i < j && log[i].key == log[j].key ::
      Granted(log, answers, log[j].key, i, j) as real + 1.0 <= c.burst as real + c.limit * (log[j].at + d - log[i].at)
  }

  lemma AffordsIsWithinRate(c: Config, log: seq<Call>, answers: seq<Answer>, j: nat, d: real)
    requires j < |log| == |answers| && c.burst >= 1
    ensures Affords(c, log, answers, log[j].key, j, log[j].at + d, 1.0) <==> WithinRate(c, log, answers, j, d)
  {
    forall i | 0 <= i < j
      ensures TokensFromDuration(c, log[j].at + d - log[i].at) == c.limit * (log[j].at + d - log[i].at)
    {}
    hide TokensFromDuration, Granted;
  }

  /** What call j is told: whether a token is within the rate, and else the least wait for one. */
  ghost predicate ToldRight(c: Config, log: seq<Call>, answers: seq<Answer>, j: nat)
    requires j < |log| == |answers|
  {
    var a := answers[j];
    && (a.ok <==> c.burst >= 1 && WithinRate(c, log, answers, j, 0.0))
    && (if a.ok || c.burst < 1 then a.retryAfter == 0.0
        else forall d | d >= 0.0 :: d >= a.retryAfter <==> WithinRate(c, log, answers, j, d))
  }

  lemma KeptWait(c: Config, log: seq<Call>, j: nat, d: real)
    requires c.limit > 0.0 && c.burst >= 1 && Monotone(log) && j < |log| && d >= 0.0
    ensures var a := KeptAnswers(c, log)[j];
      && (d == 0.0 ==> (a.ok <==> WithinRate(c, log, KeptAnswers(c, log), j, d)))
      && (if a.ok then a.retryAfter == 0.0
          else d >= a.retryAfter <==> WithinRate(c, log, KeptAnswers(c, log), j, d))
  {
    hide *;
    var r, call, a := KeptReplay(c, log[..j]), log[j], KeptAnswers(c, log)[j];
    InOrder(log, j + 1);
    KeptLater(c, log, j);
    StepByAllowance(c, r, call);
    AvailableIff(c, log, call.key, j, call.at + d, 1.0);
    AffordsIsWithinRate(c, log, KeptAnswers(c, log), j, d);
    if !a.ok {
      AllowanceLater(c, r, call.key, call.at, d, a.retryAfter);
    }
    assert d == 0.0 ==> call.at + d == call.at;
  }

  /** Until its next call a key gains a whole token exactly by the time its denial names. */
  lemma AllowanceLater(c: Config, r: map<string, Bucket>, key: string, t: real, d: real, wait: real)
    requires c.limit > 0.0 && c.burst >= 1 && AllSound(c, r, t) && d >= 0.0
    requires Available(c, r, key, t) < 1.0 && TokensFromDuration(c, wait) == 1.0 - Available(c, r, key, t)
    ensures Available(c, r, key, t + d) >= 1.0 <==> d >= wait
  {
    hide TokensFromDuration;
    RefillMonotone(c, wait, d);
    if key in r {
      var b := r[key];
      RefillBetween(c, t - b.last, t + d - b.last);
      RefillNonNegative(c, d);
      assert t + d - b.last - (t - b.last) == d;
    }
  }

  lemma KeptToldRight(c: Config, log: seq<Call>, j: nat)
    requires c.limit > 0.0 && Monotone(log) && j < |log|
    ensures ToldRight(c, log, KeptAnswers(c, log), j)
  {
    if c.burst >= 1 {
      hide KeptAnswers, WithinRate, Monotone;
      KeptWait(c, log, j, 0.0);
      forall d | d >= 0.0
        ensures var a := KeptAnswers(c, log)[j];
          !a.ok ==> (d >= a.retryAfter <==> WithinRate(c, log, KeptAnswers(c, log), j, d))
      {
        KeptWait(c, log, j, d);
      }
    } else {
      hide WithinRate, Take;
      var b := if log[j].key in KeptReplay(c, log[..j]) then KeptReplay(c, log[..j])[log[j].key] else Full(c, log[j].at);
      NoBurst(c, b, log[j].at);
    }
  }

  // Histories of few keys never sweep.

  function KeysOf(log: seq<Call>): set<string> {
    set i | 0 <= i < |log| :: log[i].key
  }

  /** An entry is forgotten only for a new key that finds ten thousand entries there. */
  lemma StepForgets(c: Config, m: Table, call: Call)
    requires c.limit > 0.0
    ensures var m' := Step(c, m, call).0;
      && m'.Keys <= m.Keys + {call.key} && call.key in m'
      && (call.key in m || |m| < 10_000 ==> m'.Keys == m.Keys + {call.key})
  {
    hide Take;
  }

  lemma {:induction false} FewKeysStay(c: Config, log: seq<Call>, n: nat)
    requires c.limit > 0.0 && |KeysOf(log)| <= 10_000 && n <= |log|
    ensures Replay(c, log[..n]).Keys == KeysOf(log[..n]) <= KeysOf(log)
  {
    hide *;
    if n == 0 {
      NoKeyYet(c, log);
    } else {
      var m, call := Replay(c, log[..n - 1]), log[n - 1];
      KeysOfOneMore(log, n);
      FewKeysStay(c, log, n - 1);
      BothSteps(c, log, n - 1);
      StepForgets(c, m, call);
      RoomForOne(m, call.key, KeysOf(log));
    }
  }

  lemma NoKeyYet(c: Config, log: seq<Call>)
    requires c.limit > 0.0
    ensures Replay(c, log[..0]).Keys == KeysOf(log[..0]) == {}
  {
    assert log[..0] == [];
  }

  lemma KeysOfOneMore(log: seq<Call>, n: nat)
    requires 0 < n <= |log|
    ensures KeysOf(log[..n]) == KeysOf(log[..n - 1]) + {log[n - 1].key} && log[n - 1].key in KeysOf(log)
  {
    var before, now, last := log[..n - 1], log[..n], log[n - 1].key;
    forall key
      ensures key in KeysOf(now) <==> key in KeysOf(before) || key == last
    {
      if i :| 0 <= i < |now| && now[i].key == key && i < n - 1 {
        assert before[i].key == key;
      }
      if i :| 0 <= i < |before| && before[i].key == key {
        assert now[i].key == key;
      }
      assert now[n - 1].key == last;
    }
    assert log[n - 1].key in KeysOf(log);
    hide KeysOf;
    assert KeysOf(now) == KeysOf(before) + {last};
  }

  lemma RoomForOne(m: Table, key: string, keys: set<string>)
    requires m.Keys <= keys && key in keys && |keys| <= 10_000
    ensures key in m || |m| < 10_000
  {
    if key !in m {
      SubsetSize(m.Keys + {key}, keys);
      assert |m.Keys| == |m|;
    }
  }

  lemma FewKeysRemembered(c: Config, log: seq<Call>, key: string)
    requires c.limit > 0.0 && |KeysOf(log)| <= 10_000
    ensures Remembered(c, log, key)
  {
    hide Replay;
    forall n | 0 <= n <= |log| && Called(log, key, n)
      ensures key in Replay(c, log[..n])
    {
      FewKeysStay(c, log, n);
      var i :| 0 <= i < n && log[i].key == key;
      assert log[..n][i].key == key;
    }
  }

  /** Up to ten thousand keys, no configuration lets eviction show. */
  lemma FewKeysAgree(c: Config, log: seq<Call>)
    requires c.limit > 0.0 && |KeysOf(log)| <= 10_000
    ensures Answers(c, log) == KeptAnswers(c, log)
  {
    hide *;
    forall i | 0 <= i < |log|
      ensures Answers(c, log)[i] == KeptAnswers(c, log)[i]
    {
      FewKeysRemembered(c, log, log[i].key);
      RememberedAnswer(c, log, log[i].key, i);
    }
  }

  /** Main result: under a safe configuration, or with at most ten thousand keys under any, a call
      is granted exactly when that keeps every interval since an earlier call of its key
      within burst plus limit times its length; a denial names the least wait until it would. */
  lemma GrantedWithinRateIff(c: Config, log: seq<Call>, j: nat)
    requires c.limit > 0.0 && Monotone(log) && j < |log|
    requires RefillsWithinWindow(c) || |KeysOf(log)| <= 10_000
    ensures ToldRight(c, log, Answers(c, log), j)
  {
    hide *;
    KeptToldRight(c, log, j);
    if RefillsWithinWindow(c) {
      AnswersAgree(c, log);
    } else {
      FewKeysAgree(c, log);
    }
  }
}
