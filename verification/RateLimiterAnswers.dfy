/** What a caller of the limiter can rely on: independence, free denials and a tight wait. */
module RateLimiterAnswers {
  import opened TokenBucket
  import opened KeyedRateLimiter
  import opened RateLimiterEviction

  /** The elements of s that keep marks, in order. */
  function Filter<T>(s: seq<T>, keep: seq<bool>): (kept: seq<T>)
    requires |s| == |keep|
    ensures |kept| <= |s|
  {
    if s == [] then []
    else
      var n := |s| - 1;
      Filter(s[..n], keep[..n]) + if keep[n] then [s[n]] else []
  }

  lemma {:induction false} FilteredMonotone(log: seq<Call>, keep: seq<bool>)
    requires |log| == |keep| && Monotone(log)
    ensures Monotone(Filter(log, keep))
    ensures forall call | call in Filter(log, keep) :: log != [] && call.at <= log[|log| - 1].at
  {
    if log != [] {
      FilteredMonotone(log[..|log| - 1], keep[..|log| - 1]);
    }
  }

  lemma {:induction false} FilterConstant(log: seq<Call>, answers: seq<Answer>, keep: seq<bool>, a: Answer)
    requires |log| == |keep| == |answers| && forall i | 0 <= i < |answers| :: answers[i] == a
    ensures |Filter(answers, keep)| == |Filter(log, keep)|
    ensures forall i | 0 <= i < |Filter(answers, keep)| :: Filter(answers, keep)[i] == a
  {
    if log != [] {
      var n := |log| - 1;
      FilterConstant(log[..n], answers[..n], keep[..n], a);
    }
  }

  /** With no burst every call is denied, whatever is left out. */
  lemma FilteredDenials(c: Config, log: seq<Call>, keep: seq<bool>)
    requires c.limit > 0.0 && c.burst < 1 && |log| == |keep|
    ensures Answers(c, Filter(log, keep)) == Filter(Answers(c, log), keep)
  {
    hide TokensFromDuration, DurationFromTokens, Filter;
    FilterConstant(log, Answers(c, log), keep, Answer(0.0, false));
  }

  // Keys are independent.

  function OnKey(log: seq<Call>, key: string): (keep: seq<bool>)
    ensures |keep| == |log|
  {
    seq(|log|, i requires 0 <= i < |log| => log[i].key == key)
  }

  lemma {:induction false} KeptOnKey(c: Config, log: seq<Call>, key: string)
    requires c.limit > 0.0
    ensures var r, r' := KeptReplay(c, log), KeptReplay(c, Filter(log, OnKey(log, key)));
      (key in r <==> key in r') && (key in r ==> r[key] == r'[key])
    ensures KeptAnswers(c, Filter(log, OnKey(log, key))) == Filter(KeptAnswers(c, log), OnKey(log, key))
  {
    hide Take;
    if log == [] {
      assert Filter(log, OnKey(log, key)) == [];
    } else {
      var n := |log| - 1;
      var init, call := log[..n], log[n];
      var init' := Filter(init, OnKey(init, key));
      var a := KeptStep(c, KeptReplay(c, init), call).1;
      assert log == init + [call];
      KeptSnoc(c, init, call);
      KeptSnoc(c, init', call);
      assert KeptAnswers(c, log)[..n] == KeptAnswers(c, init);
      assert OnKey(log, key)[..n] == OnKey(init, key);
      assert Filter(log, OnKey(log, key)) == if call.key == key then init' + [call] else init';
      assert Filter(KeptAnswers(c, log), OnKey(log, key))
          == Filter(KeptAnswers(c, init), OnKey(init, key)) + if call.key == key then [a] else [];
      hide KeptAnswers, KeptReplay, Filter, OnKey;
      KeptOnKey(c, init, key);
    }
  }

  /** Main result: dropping every other key's calls changes no answer of this key. */
  lemma KeysAreIndependent(c: Config, log: seq<Call>, key: string)
    requires c.limit > 0.0 && RefillsWithinWindow(c) && Monotone(log)
    ensures Answers(c, Filter(log, OnKey(log, key))) == Filter(Answers(c, log), OnKey(log, key))
  {
    FilteredMonotone(log, OnKey(log, key));
    hide *;
    AnswersAgree(c, log);
    AnswersAgree(c, Filter(log, OnKey(log, key)));
    KeptOnKey(c, log, key);
  }

  // Denied calls cost nothing.

  /** b' is b before some denied calls refreshed it. */
  ghost predicate Lags(c: Config, b: Bucket, b': Bucket) {
    Sound(c, b) && Sound(c, b') && b'.last <= b.last && Level(c, b', b.last) == b.tokens
  }

  ghost predicate AllLag(c: Config, r: map<string, Bucket>, r': map<string, Bucket>, now: real) {
    && r.Keys == r'.Keys
    && forall k | k in r :: Lags(c, r[k], r'[k]) && r[k].last <= now
  }

  lemma LaggingTake(c: Config, b: Bucket, b': Bucket, t: real)
    requires c.limit > 0.0 && c.burst >= 1 && Lags(c, b, b') && b.last <= t
    ensures Take(c, b, t) == Take(c, b', t)
    ensures !Take(c, b, t).1.ok ==> Lags(c, Take(c, b, t).0, b')
    ensures Lags(c, Take(c, b, t).0, Take(c, b, t).0)
  {
    hide TokensFromDuration, DurationFromTokens;
    LevelComposes(c, b', b.last, t);
    NoRefill(c);
    TakeByLevel(c, b, t);
    TakeByLevel(c, b', t);
    TakeSeesOnlyLevel(c, b, b', t);
  }

  lemma KeptStepLags(c: Config, r: map<string, Bucket>, r': map<string, Bucket>, now: real, call: Call)
    requires c.limit > 0.0 && c.burst >= 1 && AllLag(c, r, r', now) && now <= call.at
    ensures KeptStep(c, r, call).1 == KeptStep(c, r', call).1
    ensures AllLag(c, KeptStep(c, r, call).0, KeptStep(c, r', call).0, call.at)
    ensures !KeptStep(c, r, call).1.ok ==> AllLag(c, KeptStep(c, r, call).0, r', call.at)
  {
    hide TokensFromDuration, DurationFromTokens, Take, Lags;
    NoRefill(c);
    var full := Full(c, call.at);
    TakeByLevel(c, full, call.at);
    if call.key in r {
      LaggingTake(c, r[call.key], r'[call.key], call.at);
      LagsIsSound(c, r[call.key], r'[call.key]);
      TakeByLevel(c, r[call.key], call.at);
    } else {
      FullLagsItself(c, call.at);
      LaggingTake(c, full, full, call.at);
    }
  }

  lemma LagsIsSound(c: Config, b: Bucket, b': Bucket)
    requires Lags(c, b, b')
    ensures Sound(c, b)
  {}

  lemma FullLagsItself(c: Config, t: real)
    requires c.limit > 0.0 && c.burst >= 1
    ensures Lags(c, Full(c, t), Full(c, t))
  {
    NoRefill(c);
  }

  /** Only denied calls are left out. */
  predicate DropsDenials(answers: seq<Answer>, keep: seq<bool>)
    requires |answers| == |keep|
  {
    forall i | 0 <= i < |keep| && !keep[i] :: !answers[i].ok
  }

  lemma FilterSnoc<T>(s: seq<T>, keep: seq<bool>)
    requires |s| == |keep| && s != []
    ensures var n := |s| - 1; Filter(s, keep) == Filter(s[..n], keep[..n]) + if keep[n] then [s[n]] else []
  {}

  lemma DropsEarlier(answers: seq<Answer>, keep: seq<bool>)
    requires |answers| == |keep| && answers != [] && DropsDenials(answers, keep)
    ensures var n := |keep| - 1; DropsDenials(answers[..n], keep[..n]) && (keep[n] || !answers[n].ok)
  {}

  lemma AllLagLater(c: Config, r: map<string, Bucket>, r': map<string, Bucket>, now: real, later: real)
    requires AllLag(c, r, r', now) && now <= later
    ensures AllLag(c, r, r', later)
  {
    hide Lags;
  }

  lemma NothingLags(c: Config, now: real)
    requires c.limit > 0.0
    ensures KeptReplay(c, []) == map[] && KeptAnswers(c, []) == [] && AllLag(c, map[], map[], now)
    ensures Filter<Call>([], []) == [] && Filter<Answer>([], []) == []
  {}

  lemma {:induction false} KeptWithoutDenials(c: Config, log: seq<Call>, keep: seq<bool>, now: real)
    requires c.limit > 0.0 && c.burst >= 1 && Monotone(log) && |keep| == |log|
    requires log != [] ==> log[|log| - 1].at <= now
    requires DropsDenials(KeptAnswers(c, log), keep)
    ensures AllLag(c, KeptReplay(c, log), KeptReplay(c, Filter(log, keep)), now)
    ensures KeptAnswers(c, Filter(log, keep)) == Filter(KeptAnswers(c, log), keep)
  {
    hide *;
    if log == [] {
      NothingLags(c, now);
      assert keep == [];
    } else {
      var n := |log| - 1;
      var init, call := log[..n], log[n];
      var init' := Filter(init, keep[..n]);
      var r, r' := KeptReplay(c, init), KeptReplay(c, init');
      assert log == init + [call];
      KeptSnoc(c, init, call);
      assert KeptAnswers(c, log)[..n] == KeptAnswers(c, init);
      DropsEarlier(KeptAnswers(c, log), keep);
      MonotonePrefix(log, n);
      KeptWithoutDenials(c, init, keep[..n], call.at);
      KeptStepLags(c, r, r', call.at, call);
      FilterSnoc(log, keep);
      FilterSnoc(KeptAnswers(c, log), keep);
      if keep[n] {
        KeptSnoc(c, init', call);
        AllLagLater(c, KeptStep(c, r, call).0, KeptStep(c, r', call).0, call.at, now);
      } else {
        assert Filter(log, keep) == init';
        AllLagLater(c, KeptStep(c, r, call).0, r', call.at, now);
      }
    }
  }

  /** Main result: leaving denied calls out of a history changes no other answer. */
  lemma DeniedCallsAreFree(c: Config, log: seq<Call>, keep: seq<bool>)
    requires c.limit > 0.0 && RefillsWithinWindow(c) && Monotone(log) && |keep| == |log|
    requires forall i | 0 <= i < |log| && !keep[i] :: !Answers(c, log)[i].ok
    ensures Answers(c, Filter(log, keep)) == Filter(Answers(c, log), keep)
  {
    if c.burst < 1 {
      FilteredDenials(c, log, keep);
    } else {
      assert DropsDenials(Answers(c, log), keep) by {
        hide Answers;
      }
      FilteredMonotone(log, keep);
      hide *;
      AnswersAgree(c, log);
      AnswersAgree(c, Filter(log, keep));
      KeptWithoutDenials(c, log, keep, if log == [] then 0.0 else log[|log| - 1].at);
    }
  }

  // The header, and the middleware that writes it.

  /** The whole seconds the Retry-After header carries. */
  function RetryAfterSeconds(d: real): int {
    var seconds := -(-d).Floor;
    if seconds < 1 then 1 else seconds
  }

  /** The header names the least whole number of seconds, at least one, that waits out d. */
  lemma RetryAfterSecondsIsLeast(d: real, n: int)
    ensures n >= RetryAfterSeconds(d) <==> n >= 1 && n as real >= d
    ensures d > 0.0 ==> RetryAfterSeconds(d) as real < d + 1.0
  {
    assert (-d).Floor as real <= -d < (-d).Floor as real + 1.0;
    assert n as real >= d <==> -n <= (-d).Floor;
  }

  datatype Response = Passed | TooManyRequests(retryAfter: int)

  /** The middleware: pass a granted request on, answer a denied one with the header. */
  method RateLimit(limiter: Limiter, key: string, now: real) returns (response: Response)
    requires limiter.Valid()
    modifies limiter
    ensures limiter.Valid() && limiter.log == old(limiter.log) + [Call(key, now)]
    ensures var answers := Answers(limiter.config, limiter.log);
      var a := answers[|answers| - 1];
      response == if a.ok then Passed else TooManyRequests(RetryAfterSeconds(a.retryAfter))
  {
    var retryAfter, ok := limiter.Allow(key, now);
    response := if ok then Passed else TooManyRequests(RetryAfterSeconds(retryAfter));
  }
}
