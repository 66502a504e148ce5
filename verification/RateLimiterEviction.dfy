/** Forgetting a key is invisible exactly when its bucket refills within the stale window. */
module RateLimiterEviction {
  import opened TokenBucket
  import opened KeyedRateLimiter

  /** The burst comes back within ten minutes. */
  predicate RefillsWithinWindow(c: Config) {
    c.burst as real <= c.limit * 600.0
  }

  lemma WindowRefills(c: Config)
    ensures RefillsWithinWindow(c) <==> c.burst as real <= TokensFromDuration(c, STALE_KEY_WINDOW)
  {}

  /** No history can tell the bounded map from the one that never forgets. */
  ghost predicate EvictionInvisible(c: Config)
    requires c.limit > 0.0
  {
    forall log: seq<Call> | Monotone(log) :: Answers(c, log) == KeptAnswers(c, log)
  }

  // Sufficiency: a simulation between the two maps.

  /** The entries agree, and every forgotten bucket has been idle past the window. */
  ghost predicate Agrees(c: Config, m: Table, r: map<string, Bucket>, now: real) {
    && m.Keys <= r.Keys
    && (forall k | k in r :: Sound(c, r[k]) && r[k].last <= now)
    && (forall k | k in m :: m[k] == Entry(r[k], r[k].last))
    && (forall k | k in r && k !in m :: r[k].last < now - STALE_KEY_WINDOW)
  }

  lemma TakeSeesOnlyLevel(c: Config, b: Bucket, b': Bucket, t: real)
    requires c.limit > 0.0 && c.burst >= 1 && Level(c, b, t) == Level(c, b', t)
    ensures Take(c, b, t) == Take(c, b', t)
  {
    hide TokensFromDuration, DurationFromTokens;
  }

  lemma IdleBucketIsFull(c: Config, b: Bucket, t: real)
    requires c.limit > 0.0 && RefillsWithinWindow(c) && Sound(c, b) && b.last < t - STALE_KEY_WINDOW
    ensures Level(c, b, t) == c.burst as real
  {
    WindowRefills(c);
    hide TokensFromDuration, DurationFromTokens, RefillsWithinWindow;
    RefillMonotone(c, STALE_KEY_WINDOW, t - b.last);
  }

  lemma StepAgrees(c: Config, m: Table, r: map<string, Bucket>, now: real, call: Call)
    requires c.limit > 0.0 && c.burst >= 1 && RefillsWithinWindow(c)
    requires Agrees(c, m, r, now) && now <= call.at
    ensures Agrees(c, Step(c, m, call).0, KeptStep(c, r, call).0, call.at)
    ensures Step(c, m, call).1 == KeptStep(c, r, call).1
  {
    hide TokensFromDuration, DurationFromTokens;
    var k, t := call.key, call.at;
    var kept := if k in r then r[k] else Full(c, t);
    if k in m {
      assert Touch(c, m, k, t)[k].bucket == kept;
    } else {
      NoRefill(c);
      if k in r {
        IdleBucketIsFull(c, kept, t);
      }
      TakeSeesOnlyLevel(c, Full(c, t), kept, t);
    }
    TakeByLevel(c, kept, t);
  }

  lemma {:induction false} HistoriesAgree(c: Config, log: seq<Call>, now: real)
    requires c.limit > 0.0 && c.burst >= 1 && RefillsWithinWindow(c)
    requires Monotone(log) && (log != [] ==> log[|log| - 1].at <= now)
    ensures Agrees(c, Replay(c, log), KeptReplay(c, log), if log == [] then now else log[|log| - 1].at)
  {
    hide TokensFromDuration, DurationFromTokens;
    if log != [] {
      var n := |log| - 1;
      HistoriesAgree(c, log[..n], log[n].at);
      var before := if n == 0 then log[n].at else log[n - 1].at;
      StepAgrees(c, Replay(c, log[..n]), KeptReplay(c, log[..n]), before, log[n]);
    }
  }

  lemma AnswersAgree(c: Config, log: seq<Call>)
    requires c.limit > 0.0 && RefillsWithinWindow(c) && Monotone(log)
    ensures Answers(c, log) == KeptAnswers(c, log)
  {
    hide TokensFromDuration, DurationFromTokens;
    forall i | 0 <= i < |log|
      ensures AnswerAt(c, log, i) == KeptAnswerAt(c, log, i)
    {
      if c.burst >= 1 {
        HistoriesAgree(c, log[..i], log[i].at);
        var before := if i == 0 then log[i].at else log[i - 1].at;
        StepAgrees(c, Replay(c, log[..i]), KeptReplay(c, log[..i]), before, log[i]);
      }
    }
  }

  // The window bound, for the map that never forgets.

  /** Calls on key granted among log[lo..hi]. */
  function Granted(log: seq<Call>, answers: seq<Answer>, key: string, lo: nat, hi: nat): nat
    requires lo <= hi <= |log| == |answers|
  {
    if lo == hi then 0
    else Granted(log, answers, key, lo, hi - 1) + One(log[hi - 1], answers[hi - 1], key)
  }

  /** What a key could still spend at time t. */
  function Available(c: Config, r: map<string, Bucket>, key: string, t: real): real {
    if key in r then Level(c, r[key], t) else c.burst as real
  }

  ghost predicate AllSound(c: Config, r: map<string, Bucket>, now: real) {
    forall k | k in r :: Sound(c, r[k]) && r[k].last <= now
  }

  lemma KeptStepSpends(c: Config, r: map<string, Bucket>, call: Call, key: string, now: real)
    requires c.limit > 0.0 && c.burst >= 1 && AllSound(c, r, now) && now <= call.at
    ensures AllSound(c, KeptStep(c, r, call).0, call.at)
    ensures var (r', a) := KeptStep(c, r, call);
      Available(c, r', key, call.at) ==
        Available(c, r, key, call.at) - if call.key == key && a.ok then 1.0 else 0.0
  {
    hide TokensFromDuration, DurationFromTokens;
    var b := if call.key in r then r[call.key] else Full(c, call.at);
    TakeByLevel(c, b, call.at);
    NoRefill(c);
  }

  lemma {:induction false} KeptSound(c: Config, log: seq<Call>, now: real)
    requires c.limit > 0.0 && c.burst >= 1 && Monotone(log) && (log != [] ==> log[|log| - 1].at <= now)
    ensures AllSound(c, KeptReplay(c, log), now)
  {
    hide TokensFromDuration, DurationFromTokens;
    if log != [] {
      var n := |log| - 1;
      KeptSound(c, log[..n], log[n].at);
      KeptStepSpends(c, KeptReplay(c, log[..n]), log[n], log[n].key, log[n].at);
    }
  }

  /** Between two calls a key's allowance grows by at most the refill. */
  lemma AvailableGrows(c: Config, r: map<string, Bucket>, key: string, t: real, t': real)
    requires c.limit > 0.0 && AllSound(c, r, t) && t <= t'
    ensures Available(c, r, key, t') <= Available(c, r, key, t) + TokensFromDuration(c, t' - t)
  {
    hide TokensFromDuration, DurationFromTokens;
    RefillNonNegative(c, t' - t);
    if key in r {
      LevelGrows(c, r[key], t, t');
    }
  }

  lemma AvailableInRange(c: Config, r: map<string, Bucket>, key: string, t: real)
    requires c.limit > 0.0 && c.burst >= 1 && AllSound(c, r, t)
    ensures 0.0 <= Available(c, r, key, t) <= c.burst as real
  {
    hide TokensFromDuration, DurationFromTokens;
    if key in r {
      TakeByLevel(c, r[key], t);
    }
  }

  function One(call: Call, answer: Answer, key: string): nat {
    if call.key == key && answer.ok then 1 else 0
  }

  /** left[i] is what key could spend when call i arrived: capped by the burst, lowered by
      each grant and raised by no more than the refill between two calls. clock counts
      the tokens a bucket refills by. */
  ghost predicate Ledger(burst: real, log: seq<Call>, answers: seq<Answer>, key: string, clock: seq<real>, left: seq<real>) {
    && |left| == |clock| == |answers| == |log|
    && (forall i | 0 <= i < |log| :: One(log[i], answers[i], key) as real <= left[i] <= burst)
    && (forall i | 0 < i < |log| ::
          left[i] + One(log[i - 1], answers[i - 1], key) as real - left[i - 1] <= clock[i] - clock[i - 1])
  }

  /** Grants so far plus what is left never exceed the burst plus what was refilled. */
  lemma {:induction false} Budget(burst: real, log: seq<Call>, answers: seq<Answer>, key: string,
                                  clock: seq<real>, left: seq<real>, lo: nat, hi: nat)
    requires Ledger(burst, log, answers, key, clock, left) && lo < hi <= |log|
    ensures Granted(log, answers, key, lo, hi - 1) as real + left[hi - 1] <= burst + clock[hi - 1] - clock[lo]
    ensures Granted(log, answers, key, lo, hi) as real <= burst + clock[hi - 1] - clock[lo]
  {
    if hi - 1 > lo {
      Budget(burst, log, answers, key, clock, left, lo, hi - 1);
    }
  }

  lemma KeptLedger(c: Config, log: seq<Call>, key: string) returns (clock: seq<real>, left: seq<real>)
    requires c.limit > 0.0 && c.burst >= 1 && Monotone(log)
    ensures Ledger(c.burst as real, log, KeptAnswers(c, log), key, clock, left)
    ensures forall i | 0 <= i < |log| :: clock[i] == TokensFromDuration(c, log[i].at)
  {
    hide TokensFromDuration, DurationFromTokens, KeptReplay, KeptStep, Available;
    clock := seq(|log|, i requires 0 <= i < |log| => TokensFromDuration(c, log[i].at));
    left := seq(|log|, i requires 0 <= i < |log| => Available(c, KeptReplay(c, log[..i]), key, log[i].at));
    forall i | 0 <= i < |log|
      ensures One(log[i], KeptAnswers(c, log)[i], key) as real <= left[i] <= c.burst as real
    {
      KeptRow(c, log, key, i);
    }
    forall i | 0 < i < |log|
      ensures left[i] + One(log[i - 1], KeptAnswers(c, log)[i - 1], key) as real - left[i - 1] <= clock[i] - clock[i - 1]
    {
      KeptNextRow(c, log, key, i);
    }
  }

  lemma KeptRow(c: Config, log: seq<Call>, key: string, i: nat)
    requires c.limit > 0.0 && c.burst >= 1 && Monotone(log) && i < |log|
    ensures One(log[i], KeptStep(c, KeptReplay(c, log[..i]), log[i]).1, key) as real
              <= Available(c, KeptReplay(c, log[..i]), key, log[i].at) <= c.burst as real
  {
    hide TokensFromDuration, DurationFromTokens;
    var r := KeptReplay(c, log[..i]);
    KeptSound(c, log[..i], log[i].at);
    AvailableInRange(c, r, key, log[i].at);
    KeptStepSpends(c, r, log[i], key, log[i].at);
    AvailableInRange(c, KeptStep(c, r, log[i]).0, key, log[i].at);
  }

  lemma KeptNextRow(c: Config, log: seq<Call>, key: string, i: nat)
    requires c.limit > 0.0 && c.burst >= 1 && Monotone(log) && 0 < i < |log|
    ensures Available(c, KeptReplay(c, log[..i]), key, log[i].at)
              + One(log[i - 1], KeptStep(c, KeptReplay(c, log[..i - 1]), log[i - 1]).1, key) as real
              - Available(c, KeptReplay(c, log[..i - 1]), key, log[i - 1].at)
            <= TokensFromDuration(c, log[i].at) - TokensFromDuration(c, log[i - 1].at)
  {
    hide TokensFromDuration, DurationFromTokens, KeptReplay, KeptStep, KeptAnswers, Available;
    assert log[..i] == log[..i - 1] + [log[i - 1]];
    KeptSound(c, log[..i - 1], log[i - 1].at);
    KeptStepRefills(c, KeptReplay(c, log[..i - 1]), log[i - 1], key, log[i].at);
    KeptSnoc(c, log[..i - 1], log[i - 1]);
  }

  lemma KeptStepRefills(c: Config, r: map<string, Bucket>, call: Call, key: string, t: real)
    requires c.limit > 0.0 && c.burst >= 1 && AllSound(c, r, call.at) && call.at <= t
    ensures var (r', a) := KeptStep(c, r, call);
      Available(c, r', key, t) + One(call, a, key) as real - Available(c, r, key, call.at) <= TokensFromDuration(c, t) - TokensFromDuration(c, call.at)
  {
    hide TokensFromDuration, DurationFromTokens;
    KeptStepSpends(c, r, call, key, call.at);
    AvailableGrows(c, KeptStep(c, r, call).0, key, call.at, t);
    RefillBetween(c, call.at, t);
  }

  /** log[lo..hi] falls in the closed interval of the given length from start. */
  predicate InWindow(log: seq<Call>, lo: nat, hi: nat, start: real, length: real) {
    && length >= 0.0 && lo <= hi <= |log|
    && forall i | lo <= i < hi :: start <= log[i].at <= start + length
  }

  lemma KeptWindowBound(c: Config, log: seq<Call>, key: string, lo: nat, hi: nat, start: real, length: real)
    requires c.limit > 0.0 && c.burst >= 0 && Monotone(log) && InWindow(log, lo, hi, start, length)
    ensures Granted(log, KeptAnswers(c, log), key, lo, hi) as real <= c.burst as real + TokensFromDuration(c, length)
  {
    hide TokensFromDuration, DurationFromTokens, KeptAnswers, Ledger, Granted;
    var answers := KeptAnswers(c, log);
    if c.burst == 0 || lo == hi {
      NothingGranted(c, log, key, lo, hi);
      RefillNonNegative(c, length);
    } else {
      var clock, left := KeptLedger(c, log, key);
      Budget(c.burst as real, log, answers, key, clock, left, lo, hi);
      RefillBetween(c, log[lo].at, log[hi - 1].at);
      RefillMonotone(c, log[hi - 1].at - log[lo].at, length);
    }
  }

  lemma {:induction false} NothingGranted(c: Config, log: seq<Call>, key: string, lo: nat, hi: nat)
    requires c.limit > 0.0 && lo <= hi <= |log| && (c.burst < 1 || lo == hi)
    ensures Granted(log, KeptAnswers(c, log), key, lo, hi) == 0
  {
    if lo < hi {
      NothingGranted(c, log, key, lo, hi - 1);
    }
  }

  /** In any window of the given length a key is granted at most burst + limit * length calls. */
  ghost predicate WindowBounded(c: Config)
    requires c.limit > 0.0
  {
    forall log: seq<Call>, key: string, lo: nat, hi: nat, start: real, length: real
      | Monotone(log) && InWindow(log, lo, hi, start, length)
      :: Granted(log, Answers(c, log), key, lo, hi) as real <= c.burst as real + c.limit * length
  }

  // Necessity: the history that spends one key's burst twice.

  const VICTIM := ""

  function Repeat(call: Call, n: nat): seq<Call> {
    seq(n, _ => call)
  }

  /** Distinct keys other than the victim's, told apart by their length. */
  function Filler(i: nat): (key: string)
    ensures |key| == i + 1
  {
    seq(i + 1, _ => 'x')
  }

  function Fillers(n: nat, t: real): seq<Call> {
    seq(n, i requires 0 <= i => Call(Filler(i), t))
  }

  /** Spend the victim's burst, fill the map, wait out the window, force a sweep, spend again. */
  function Spray(burst: nat, t: real): seq<Call> {
    Repeat(Call(VICTIM, 0.0), burst) + Fillers(MAX_TRACKED_KEYS, 0.0)
      + [Call(Filler(MAX_TRACKED_KEYS), t)] + Repeat(Call(VICTIM, t), burst)
  }

  /** A victim seen for the first time spends one token of a full bucket. */
  lemma FreshTake(c: Config, m: Table, t: real)
    requires c.limit > 0.0 && c.burst >= 1 && VICTIM !in m
    ensures Step(c, m, Call(VICTIM, t))
         == (Touch(c, m, VICTIM, t)[VICTIM := Entry(Bucket((c.burst - 1) as real, t), t)], Answer(0.0, true))
  {
    hide TokensFromDuration, DurationFromTokens;
    NoRefill(c);
    TakeByLevel(c, Full(c, t), t);
  }

  /** A victim with some whole tokens at this very instant spends one of them. */
  lemma NextTake(c: Config, m: Table, t: real, left: nat)
    requires c.limit > 0.0 && 1 <= left <= c.burst && VICTIM in m && m[VICTIM] == Entry(Bucket(left as real, t), t)
    ensures Step(c, m, Call(VICTIM, t)) == (m[VICTIM := Entry(Bucket((left - 1) as real, t), t)], Answer(0.0, true))
  {
    hide TokensFromDuration, DurationFromTokens;
    NoRefill(c);
    TakeByLevel(c, Bucket(left as real, t), t);
    var spent := Entry(Bucket((left - 1) as real, t), t);
    assert Touch(c, m, VICTIM, t)[VICTIM := spent] == m[VICTIM := spent];
  }

  /** Calls at one instant drain the victim's bucket one whole token at a time. */
  lemma {:induction false} DrainOnce(c: Config, log: seq<Call>, t: real, n: nat)
    requires c.limit > 0.0 && 1 <= n <= c.burst
    requires VICTIM !in Replay(c, log)
    ensures var all := log + Repeat(Call(VICTIM, t), n);
      && Replay(c, all) == Touch(c, Replay(c, log), VICTIM, t)[VICTIM := Entry(Bucket((c.burst - n) as real, t), t)]
      && (forall i | |log| <= i < |all| :: Answers(c, all)[i].ok)
  {
    hide TokensFromDuration, DurationFromTokens, Replay, Answers, Step, Touch;
    var call := Call(VICTIM, t);
    var init := log + Repeat(call, n - 1);
    var all := log + Repeat(call, n);
    var m, drained := Touch(c, Replay(c, log), VICTIM, t), Entry(Bucket((c.burst - n) as real, t), t);
    assert all == init + [call];
    assert Step(c, Replay(c, init), call) == (m[VICTIM := drained], Answer(0.0, true)) by {
      if n == 1 {
        assert init == log;
        FreshTake(c, Replay(c, log), t);
      } else {
        DrainOnce(c, log, t, n - 1);
        NextTake(c, Replay(c, init), t, c.burst - (n - 1));
        assert Replay(c, init)[VICTIM := drained] == m[VICTIM := drained];
      }
    }
    Snoc(c, init, call);
    forall i | |log| <= i < |all|
      ensures Answers(c, all)[i].ok
    {
      if i < |init| {
        DrainOnce(c, log, t, n - 1);
      }
    }
  }

  lemma FirstSpend(c: Config)
    requires c.limit > 0.0 && c.burst >= 1
    ensures var first := Repeat(Call(VICTIM, 0.0), c.burst);
      && Replay(c, first) == map[VICTIM := Entry(Bucket(0.0, 0.0), 0.0)]
      && (forall i | 0 <= i < c.burst :: Answers(c, first)[i].ok)
  {
    hide TokensFromDuration, DurationFromTokens;
    var first := Repeat(Call(VICTIM, 0.0), c.burst);
    var drained := Entry(Bucket(0.0, 0.0), 0.0);
    assert Replay(c, []) == map[];
    assert Touch(c, map[], VICTIM, 0.0)[VICTIM := drained] == map[VICTIM := drained];
    hide Answers, Step, Replay, Touch;
    DrainOnce(c, [], 0.0, c.burst);
    assert [] + first == first;
  }

  /** Fillers pile up beside the victim, whose entry they leave alone. */
  lemma {:induction false} FillersPileUp(c: Config, log: seq<Call>, n: nat)
    requires c.limit > 0.0
    requires Replay(c, log).Keys == {VICTIM} && Replay(c, log)[VICTIM].lastSeen == 0.0
    ensures var m := Replay(c, log + Fillers(n, 0.0));
      && (forall k | k in m :: |k| <= n && m[k].lastSeen == 0.0)
      && |m| == n + 1
  {
    hide TokensFromDuration, DurationFromTokens, Replay, Step;
    var all := log + Fillers(n, 0.0);
    if n == 0 {
      assert all == log;
    } else {
      FillersPileUp(c, log, n - 1);
      var init := log + Fillers(n - 1, 0.0);
      var call := Call(Filler(n - 1), 0.0);
      assert all == init + [call];
      Snoc(c, init, call);
      FillerStep(c, Replay(c, init), call);
    }
  }

  lemma FillerStep(c: Config, m: Table, call: Call)
    requires c.limit > 0.0 && call.key !in m && call.at == 0.0
    requires forall k | k in m :: m[k].lastSeen == 0.0
    ensures var m' := Step(c, m, call).0;
      m'.Keys == m.Keys + {call.key} && |m'| == |m| + 1 && forall k | k in m' :: m'[k].lastSeen == 0.0
  {
    hide TokensFromDuration, DurationFromTokens;
    var m' := Step(c, m, call).0;
    assert Sweep(m, 0.0) == m;
    assert m'.Keys == m.Keys + {call.key};
    assert |m'.Keys| == |m.Keys| + 1;
  }

  /** A key that was never seen, arriving once everything is stale, empties the full map. */
  lemma NewcomerSweeps(c: Config, m: Table, call: Call)
    requires c.limit > 0.0 && |m| > MAX_TRACKED_KEYS && call.key !in m && call.at > STALE_KEY_WINDOW
    requires forall k | k in m :: m[k].lastSeen == 0.0
    ensures Step(c, m, call).0.Keys == {call.key}
  {
    hide TokensFromDuration, DurationFromTokens;
    assert Sweep(m, call.at) == map[];
  }

  lemma SprayMonotone(burst: nat, t: real)
    requires t >= 0.0
    ensures Monotone(Spray(burst, t)) && InWindow(Spray(burst, t), 0, |Spray(burst, t)|, 0.0, t)
  {}

  /** The spray up to the newcomer that sweeps the victim out. */
  function Swept(burst: nat, t: real): seq<Call> {
    Repeat(Call(VICTIM, 0.0), burst) + Fillers(MAX_TRACKED_KEYS, 0.0) + [Call(Filler(MAX_TRACKED_KEYS), t)]
  }

  lemma VictimIsSwept(c: Config, t: real)
    requires c.limit > 0.0 && c.burst >= 1 && t > STALE_KEY_WINDOW
    ensures VICTIM !in Replay(c, Swept(c.burst, t))
  {
    hide TokensFromDuration, DurationFromTokens, Replay, Answers, Step;
    var first := Repeat(Call(VICTIM, 0.0), c.burst);
    var filled := first + Fillers(MAX_TRACKED_KEYS, 0.0);
    var newcomer := Call(Filler(MAX_TRACKED_KEYS), t);
    FirstSpend(c);
    FillersPileUp(c, first, MAX_TRACKED_KEYS);
    NewcomerSweeps(c, Replay(c, filled), newcomer);
    Snoc(c, filled, newcomer);
  }

  lemma SprayParts(burst: nat, t: real)
    ensures var all, swept := Spray(burst, t), Swept(burst, t);
      && burst <= |swept| && |all| == |swept| + burst
      && all == swept + Repeat(Call(VICTIM, t), burst) && all[..burst] == Repeat(Call(VICTIM, 0.0), burst)
      && (forall i | 0 <= i < burst || |swept| <= i < |all| :: all[i].key == VICTIM)
  {}

  /** The sprayed history grants the victim its burst a second time. */
  lemma SprayGrantsTwice(c: Config, t: real)
    requires c.limit > 0.0 && c.burst >= 1 && t > STALE_KEY_WINDOW
    ensures var log := Spray(c.burst, t); Granted(log, Answers(c, log), VICTIM, 0, |log|) >= 2 * c.burst
  {
    hide *;
    var n, all, swept := c.burst, Spray(c.burst, t), Swept(c.burst, t);
    var answers := Answers(c, all);
    SprayParts(n, t);
    FirstSpend(c);
    VictimIsSwept(c, t);
    DrainOnce(c, swept, t, n);
    AnswersOfPrefix(c, all, n);
    assert forall i | 0 <= i < n :: answers[i] == answers[..n][i];
    BothBursts(all, answers, VICTIM, n, |swept|);
  }

  /** Two stretches of granted calls on a key count together. */
  lemma BothBursts(log: seq<Call>, answers: seq<Answer>, key: string, n: nat, k: nat)
    requires n <= k <= |log| == |answers|
    requires forall i | 0 <= i < n :: log[i].key == key && answers[i].ok
    requires forall i | k <= i < |log| :: log[i].key == key && answers[i].ok
    ensures Granted(log, answers, key, 0, |log|) >= n + |log| - k
  {
    GrantedAll(log, answers, key, 0, n);
    GrantedAll(log, answers, key, k, |log|);
    hide Granted;
    GrantedSplits(log, answers, key, 0, n, k);
    GrantedSplits(log, answers, key, 0, k, |log|);
  }

  lemma {:induction false} GrantedAll(log: seq<Call>, answers: seq<Answer>, key: string, lo: nat, hi: nat)
    requires lo <= hi <= |log| == |answers| && forall i | lo <= i < hi :: log[i].key == key && answers[i].ok
    ensures Granted(log, answers, key, lo, hi) == hi - lo
  {
    if lo < hi {
      GrantedAll(log, answers, key, lo, hi - 1);
    }
  }

  lemma {:induction false} GrantedSplits(log: seq<Call>, answers: seq<Answer>, key: string, lo: nat, mid: nat, hi: nat)
    requires lo <= mid <= hi <= |log| == |answers|
    ensures Granted(log, answers, key, lo, hi) == Granted(log, answers, key, lo, mid) + Granted(log, answers, key, mid, hi)
  {
    if mid < hi {
      GrantedSplits(log, answers, key, lo, mid, hi - 1);
    }
  }

  /** A moment past the window at which the drained bucket is still short of its burst. */
  lemma ShortOfBurst(c: Config) returns (t: real)
    requires c.limit > 0.0 && !RefillsWithinWindow(c)
    ensures t > STALE_KEY_WINDOW && TokensFromDuration(c, t) < c.burst as real
  {
    WindowRefills(c);
    hide TokensFromDuration, DurationFromTokens, RefillsWithinWindow;
    var goal := (c.burst as real + TokensFromDuration(c, STALE_KEY_WINDOW)) / 2.0;
    t := DurationFromTokens(c, goal);
    WaitRefills(c, goal);
    RefillMonotone(c, t, STALE_KEY_WINDOW);
  }

  /** A configuration that does not refill in time is caught out by some sprayed history. */
  lemma SprayExceeds(c: Config) returns (log: seq<Call>, t: real)
    requires c.limit > 0.0 && !RefillsWithinWindow(c)
    ensures c.burst >= 1 && Monotone(log) && InWindow(log, 0, |log|, 0.0, t)
    ensures Granted(log, Answers(c, log), VICTIM, 0, |log|) as real > c.burst as real + TokensFromDuration(c, t)
  {
    WindowRefills(c);
    hide TokensFromDuration, DurationFromTokens, RefillsWithinWindow;
    RefillNonNegative(c, STALE_KEY_WINDOW);
    t := ShortOfBurst(c);
    log := Spray(c.burst, t);
    SprayMonotone(c.burst, t);
    SprayGrantsTwice(c, t);
  }

  /** Main result: the configuration is safe to evict under exactly when a bucket refills
      within the stale window; otherwise other keys' traffic hands a key its burst twice. */
  lemma EvictionInvisibleIff(c: Config)
    requires c.limit > 0.0
    ensures EvictionInvisible(c) <==> c.burst as real <= c.limit * 600.0
  {
    assert RefillsWithinWindow(c) <==> c.burst as real <= c.limit * 600.0;
    hide TokensFromDuration, DurationFromTokens, RefillsWithinWindow;
    if RefillsWithinWindow(c) {
      forall log: seq<Call> | Monotone(log)
        ensures Answers(c, log) == KeptAnswers(c, log)
      {
        AnswersAgree(c, log);
      }
    } else {
      var log, t := SprayExceeds(c);
      KeptWindowBound(c, log, VICTIM, 0, |log|, 0.0, t);
      assert Answers(c, log) != KeptAnswers(c, log);
    }
  }

  /** Main result: the rate promise holds over every window exactly under the same condition. */
  lemma WindowBoundedIff(c: Config)
    requires c.limit > 0.0 && c.burst >= 0
    ensures WindowBounded(c) <==> c.burst as real <= c.limit * 600.0
  {
    assert RefillsWithinWindow(c) <==> c.burst as real <= c.limit * 600.0;
    hide TokensFromDuration, DurationFromTokens, RefillsWithinWindow;
    if RefillsWithinWindow(c) {
      forall log: seq<Call>, key: string, lo: nat, hi: nat, start: real, length: real
        | Monotone(log) && InWindow(log, lo, hi, start, length)
        ensures Granted(log, Answers(c, log), key, lo, hi) as real <= c.burst as real + c.limit * length
      {
        RefillOf(c, length);
        AnswersAgree(c, log);
        KeptWindowBound(c, log, key, lo, hi, start, length);
      }
    } else {
      var log, t := SprayExceeds(c);
      RefillOf(c, t);
    }
  }
}
