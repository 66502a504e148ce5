/** Under exactly which configurations the bounded map keeps each promise about one key. */
module RateLimiterConditions {
  import opened KeyedRateLimiter
  import opened RateLimiterAnswers
  import opened RateLimiterEviction
  import opened TokenBucket

  // A key that is never forgotten is answered like one the unbounded map keeps.

  predicate Called(log: seq<Call>, key: string, n: nat)
    requires n <= |log|
  {
    exists i | 0 <= i < n :: log[i].key == key
  }

  /** The key is in the map after every prefix of the history in which it was called. */
  ghost predicate Remembered(c: Config, log: seq<Call>, key: string)
    requires c.limit > 0.0
  {
    forall n | 0 <= n <= |log| && Called(log, key, n) :: key in Replay(c, log[..n])
  }

  /** One call on the bounded map, entry by entry. */
  lemma StepOwn(c: Config, m: Table, call: Call)
    requires c.limit > 0.0
    ensures var (m', a) := Step(c, m, call);
      var b := if call.key in m then m[call.key].bucket else Full(c, call.at);
      && a == Take(c, b, call.at).1
      && call.key in m' && m'[call.key] == Entry(Take(c, b, call.at).0, call.at)
      && (forall k | k in m' && k != call.key :: k in m && m'[k] == m[k])
      && (forall k | k in m && k !in m' :: call.key !in m && Stale(m[k], call.at))
  {
    hide Take;
  }

  lemma KeptStepOwn(c: Config, r: map<string, Bucket>, call: Call)
    requires c.limit > 0.0
    ensures var (r', a) := KeptStep(c, r, call);
      var b := if call.key in r then r[call.key] else Full(c, call.at);
      && a == Take(c, b, call.at).1
      && call.key in r' && r'[call.key] == Take(c, b, call.at).0
      && (forall k | k != call.key :: (k in r' <==> k in r) && (k in r ==> r'[k] == r[k]))
  {
    hide Take;
  }

  /** The last call of a prefix, on both maps. */
  lemma BothSteps(c: Config, log: seq<Call>, n: nat)
    requires c.limit > 0.0 && n < |log|
    ensures Replay(c, log[..n + 1]) == Step(c, Replay(c, log[..n]), log[n]).0
    ensures Answers(c, log)[n] == Step(c, Replay(c, log[..n]), log[n]).1
    ensures KeptReplay(c, log[..n + 1]) == KeptStep(c, KeptReplay(c, log[..n]), log[n]).0
    ensures KeptAnswers(c, log)[n] == KeptStep(c, KeptReplay(c, log[..n]), log[n]).1
  {
    assert log[..n + 1] == log[..n] + [log[n]];
    hide Step, KeptStep, Replay, KeptReplay;
    Snoc(c, log[..n], log[n]);
    KeptSnoc(c, log[..n], log[n]);
  }

  lemma CalledStep(log: seq<Call>, key: string, n: nat)
    requires n < |log|
    ensures Called(log, key, n + 1) <==> Called(log, key, n) || log[n].key == key
    ensures !Called(log, key, 0)
  {}

  /** The two maps agree on a key, and have it exactly if it was called. */
  ghost predicate Same(m: Table, r: map<string, Bucket>, key: string, called: bool) {
    (key in m <==> called) && (key in r <==> called) && (called ==> m[key].bucket == r[key])
  }

  lemma StepSame(c: Config, m: Table, r: map<string, Bucket>, call: Call, key: string, called: bool)
    requires c.limit > 0.0 && Same(m, r, key, called)
    requires called ==> key in Step(c, m, call).0
    ensures Same(Step(c, m, call).0, KeptStep(c, r, call).0, key, called || call.key == key)
    ensures call.key == key ==> Step(c, m, call).1 == KeptStep(c, r, call).1
  {
    hide Step, KeptStep, Take;
    StepOwn(c, m, call);
    KeptStepOwn(c, r, call);
  }

  lemma NothingSame(c: Config, log: seq<Call>, key: string)
    requires c.limit > 0.0
    ensures Same(Replay(c, log[..0]), KeptReplay(c, log[..0]), key, Called(log, key, 0))
  {
    assert log[..0] == [];
  }

  lemma RememberedAt(c: Config, log: seq<Call>, key: string, n: nat)
    requires c.limit > 0.0 && Remembered(c, log, key) && n <= |log| && Called(log, key, n)
    ensures key in Replay(c, log[..n])
  {
    hide Called, Replay;
  }

  /** A remembered key has the same bucket in both maps. */
  lemma {:induction false} SameBucket(c: Config, log: seq<Call>, key: string, n: nat)
    requires c.limit > 0.0 && Remembered(c, log, key) && n <= |log|
    ensures Same(Replay(c, log[..n]), KeptReplay(c, log[..n]), key, Called(log, key, n))
  {
    hide *;
    if n == 0 {
      NothingSame(c, log, key);
    } else {
      SameBucket(c, log, key, n - 1);
      BothSteps(c, log, n - 1);
      CalledStep(log, key, n - 1);
      if Called(log, key, n - 1) {
        RememberedAt(c, log, key, n);
      }
      StepSame(c, Replay(c, log[..n - 1]), KeptReplay(c, log[..n - 1]), log[n - 1], key, Called(log, key, n - 1));
    }
  }

  lemma RememberedAnswer(c: Config, log: seq<Call>, key: string, i: nat)
    requires c.limit > 0.0 && Remembered(c, log, key) && i < |log| && log[i].key == key
    ensures Answers(c, log)[i] == KeptAnswers(c, log)[i]
  {
    hide *;
    SameBucket(c, log, key, i);
    BothSteps(c, log, i);
    CalledStep(log, key, i);
    RememberedAt(c, log, key, i + 1);
    StepSame(c, Replay(c, log[..i]), KeptReplay(c, log[..i]), log[i], key, Called(log, key, i));
  }

  lemma {:induction false} SameGrants(log: seq<Call>, a: seq<Answer>, b: seq<Answer>, key: string, n: nat)
    requires n <= |log| == |a| == |b| && forall i | 0 <= i < n && log[i].key == key :: a[i] == b[i]
    ensures Granted(log, a, key, 0, n) == Granted(log, b, key, 0, n)
  {
    if n > 0 {
      SameGrants(log, a, b, key, n - 1);
    }
  }

  /** So its grants keep to the budget, whatever the configuration. */
  lemma RememberedBound(c: Config, log: seq<Call>, key: string, length: real)
    requires c.limit > 0.0 && c.burst >= 0 && Monotone(log) && InWindow(log, 0, |log|, 0.0, length)
    requires Remembered(c, log, key)
    ensures Granted(log, Answers(c, log), key, 0, |log|) as real <= c.burst as real + TokensFromDuration(c, length)
  {
    hide *;
    forall i | 0 <= i < |log| && log[i].key == key
      ensures Answers(c, log)[i] == KeptAnswers(c, log)[i]
    {
      RememberedAnswer(c, log, key, i);
    }
    SameGrants(log, Answers(c, log), KeptAnswers(c, log), key, |log|);
    KeptWindowBound(c, log, key, 0, |log|, 0.0, length);
  }

  // Leaving calls out.

  /** Leaving out calls that were not grants on key leaves the grants on key. */
  lemma {:induction false} FilteredGrants(log: seq<Call>, answers: seq<Answer>, keep: seq<bool>, key: string)
    requires |log| == |answers| == |keep|
    requires forall i | 0 <= i < |log| && !keep[i] :: log[i].key != key || !answers[i].ok
    ensures var log', answers' := Filter(log, keep), Filter(answers, keep);
      |log'| == |answers'| && Granted(log', answers', key, 0, |log'|) == Granted(log, answers, key, 0, |log|)
  {
    if log == [] {
      assert Filter(log, keep) == [] && Filter(answers, keep) == [];
    } else {
      var n := |log| - 1;
      FilterSnoc(log, keep);
      FilterSnoc(answers, keep);
      hide Filter, One;
      FilteredGrants(log[..n], answers[..n], keep[..n], key);
      GrantedPrefix(log, answers, key, n);
      var log', answers' := Filter(log, keep), Filter(answers, keep);
      if keep[n] {
        GrantedPrefix(log', answers', key, |log'| - 1);
        assert log'[..|log'| - 1] == Filter(log[..n], keep[..n]);
        assert answers'[..|log'| - 1] == Filter(answers[..n], keep[..n]);
      } else {
        NotOne(log[n], answers[n], key);
        assert log' == Filter(log[..n], keep[..n]) && answers' == Filter(answers[..n], keep[..n]);
      }
    }
  }

  lemma NotOne(call: Call, answer: Answer, key: string)
    requires call.key != key || !answer.ok
    ensures One(call, answer, key) == 0
  {}

  lemma {:induction false} GrantedShorter(log: seq<Call>, answers: seq<Answer>, key: string, k: nat, n: nat)
    requires n <= k <= |log| == |answers|
    ensures Granted(log[..k], answers[..k], key, 0, n) == Granted(log, answers, key, 0, n)
  {
    if n > 0 {
      GrantedShorter(log, answers, key, k, n - 1);
    }
  }

  lemma GrantedPrefix(log: seq<Call>, answers: seq<Answer>, key: string, n: nat)
    requires n < |log| == |answers|
    ensures Granted(log, answers, key, 0, n + 1)
      == Granted(log[..n], answers[..n], key, 0, n) + One(log[n], answers[n], key)
  {
    GrantedShorter(log, answers, key, n, n);
  }

  // Independence of keys.

  /** Dropping every other key's calls changes no answer of any key, in any history. */
  ghost predicate KeysIndependent(c: Config)
    requires c.limit > 0.0
  {
    forall log: seq<Call>, key: string | Monotone(log) ::
      Answers(c, Filter(log, OnKey(log, key))) == Filter(Answers(c, log), OnKey(log, key))
  }

  /** Calls of one key alone never sweep. */
  lemma {:induction false} AloneIsRemembered(c: Config, log: seq<Call>, key: string, n: nat)
    requires c.limit > 0.0 && n <= |log| && forall i | 0 <= i < |log| :: log[i].key == key
    ensures Called(log, key, n) ==> key in Replay(c, log[..n])
  {
    if n > 0 {
      hide *;
      AloneIsRemembered(c, log, key, n - 1);
      BothSteps(c, log, n - 1);
      StepOwn(c, Replay(c, log[..n - 1]), log[n - 1]);
    }
  }

  lemma {:induction false} OnlyOnKey(log: seq<Call>, key: string)
    ensures forall i | 0 <= i < |Filter(log, OnKey(log, key))| :: Filter(log, OnKey(log, key))[i].key == key
  {
    if log != [] {
      var n := |log| - 1;
      FilterSnoc(log, OnKey(log, key));
      assert OnKey(log, key)[..n] == OnKey(log[..n], key);
      OnlyOnKey(log[..n], key);
    }
  }

  lemma {:induction false} FilteredInWindow(log: seq<Call>, keep: seq<bool>, start: real, length: real)
    requires |log| == |keep| && InWindow(log, 0, |log|, start, length)
    ensures InWindow(Filter(log, keep), 0, |Filter(log, keep)|, start, length)
  {
    if log != [] {
      FilterSnoc(log, keep);
      FilteredInWindow(log[..|log| - 1], keep[..|log| - 1], start, length);
    }
  }

  /** What the spray breaks. */
  lemma SprayDepends(c: Config)
    requires c.limit > 0.0 && !RefillsWithinWindow(c)
    ensures !KeysIndependent(c)
  {
    var log, t := SprayExceeds(c);
    var keep := OnKey(log, VICTIM);
    var log' := Filter(log, keep);
    FilteredMonotone(log, keep);
    OnlyOnKey(log, VICTIM);
    assert forall i | 0 <= i < |log| && !keep[i] :: log[i].key != VICTIM;
    hide OnKey, Filter, RefillsWithinWindow, TokensFromDuration, Answers, Granted, Replay;
    FilteredInWindow(log, keep, 0.0, t);
    forall n | 0 <= n <= |log'| && Called(log', VICTIM, n)
      ensures VICTIM in Replay(c, log'[..n])
    {
      AloneIsRemembered(c, log', VICTIM, n);
    }
    RememberedBound(c, log', VICTIM, t);
    FilteredGrants(log, Answers(c, log), keep, VICTIM);
  }

  /** Main result: other keys' traffic never changes a key's answers exactly under the
      configurations whose buckets refill within the window. */
  lemma KeysAreIndependentIff(c: Config)
    requires c.limit > 0.0
    ensures KeysIndependent(c) <==> c.burst as real <= c.limit * 600.0
  {
    assert RefillsWithinWindow(c) <==> c.burst as real <= c.limit * 600.0;
    hide RefillsWithinWindow, TokensFromDuration, Answers, Filter, OnKey, Monotone;
    if RefillsWithinWindow(c) {
      forall log: seq<Call>, key: string | Monotone(log)
        ensures Answers(c, Filter(log, OnKey(log, key))) == Filter(Answers(c, log), OnKey(log, key))
      {
        KeysAreIndependent(c, log, key);
      }
    } else {
      SprayDepends(c);
    }
  }

  // Denied calls.

  /** Leaving out any denied calls changes no other answer, in any history. */
  ghost predicate DenialsFree(c: Config)
    requires c.limit > 0.0
  {
    forall log: seq<Call>, keep: seq<bool> | Monotone(log) && |keep| == |log| && DropsDenials(Answers(c, log), keep) ::
      Answers(c, Filter(log, keep)) == Filter(Answers(c, log), keep)
  }

  /** At every call of another key, this one was seen within the window. */
  predicate SeenRecently(log: seq<Call>, key: string) {
    forall i | 0 <= i < |log| && log[i].key != key && Called(log, key, i) ::
      exists j | 0 <= j < i :: log[j].key == key && log[j].at >= log[i].at - STALE_KEY_WINDOW
  }

  /** The key is there if it was called, seen no earlier than each of its calls. */
  ghost predicate Seen(m: Table, log: seq<Call>, key: string, n: nat)
    requires n <= |log|
  {
    forall j | 0 <= j < n && log[j].key == key :: key in m && m[key].lastSeen >= log[j].at
  }

  lemma OwnCallSeen(c: Config, m: Table, log: seq<Call>, key: string, n: nat)
    requires c.limit > 0.0 && Monotone(log) && n < |log| && log[n].key == key
    ensures Seen(Step(c, m, log[n]).0, log, key, n + 1)
  {
    hide Step;
    StepOwn(c, m, log[n]);
  }

  lemma OtherCallSeen(c: Config, m: Table, log: seq<Call>, key: string, n: nat)
    requires c.limit > 0.0 && SeenRecently(log, key) && n < |log| && log[n].key != key && Seen(m, log, key, n)
    ensures Seen(Step(c, m, log[n]).0, log, key, n + 1)
  {
    hide Step;
    StepOwn(c, m, log[n]);
    if Called(log, key, n) {
      var j :| 0 <= j < n && log[j].key == key && log[j].at >= log[n].at - STALE_KEY_WINDOW;
      assert m[key].lastSeen >= log[j].at;
    }
  }

  lemma {:induction false} SeenIsKept(c: Config, log: seq<Call>, key: string, n: nat)
    requires c.limit > 0.0 && Monotone(log) && SeenRecently(log, key) && n <= |log|
    ensures Seen(Replay(c, log[..n]), log, key, n)
  {
    if n > 0 {
      hide *;
      SeenIsKept(c, log, key, n - 1);
      BothSteps(c, log, n - 1);
      if log[n - 1].key == key {
        OwnCallSeen(c, Replay(c, log[..n - 1]), log, key, n - 1);
      } else {
        OtherCallSeen(c, Replay(c, log[..n - 1]), log, key, n - 1);
      }
    }
  }

  lemma SeenIsRemembered(c: Config, log: seq<Call>, key: string)
    requires c.limit > 0.0 && Monotone(log) && SeenRecently(log, key)
    ensures Remembered(c, log, key)
  {
    hide Replay, SeenRecently;
    forall n | 0 <= n <= |log| && Called(log, key, n)
      ensures key in Replay(c, log[..n])
    {
      SeenIsKept(c, log, key, n);
      var j :| 0 <= j < n && log[j].key == key;
    }
  }

  lemma StillThere(c: Config, log: seq<Call>, key: string, lo: nat, n: nat)
    requires c.limit > 0.0 && Remembered(c, log, key) && lo <= n <= |log| && Called(log, key, lo)
    ensures key in Replay(c, log[..n])
  {
    hide Replay, Remembered;
    assert Called(log, key, n);
    RememberedAt(c, log, key, n);
  }

  /** Calls of other keys leave a remembered entry as it is. */
  lemma {:induction false} OthersLeave(c: Config, log: seq<Call>, key: string, lo: nat, n: nat)
    requires c.limit > 0.0 && Remembered(c, log, key) && lo <= n <= |log| && Called(log, key, lo)
    requires forall i | lo <= i < n :: log[i].key != key
    ensures key in Replay(c, log[..lo]) && key in Replay(c, log[..n])
    ensures Replay(c, log[..n])[key] == Replay(c, log[..lo])[key]
  {
    hide *;
    StillThere(c, log, key, lo, n);
    if n > lo {
      OthersLeave(c, log, key, lo, n - 1);
      BothSteps(c, log, n - 1);
      StepOwn(c, Replay(c, log[..n - 1]), log[n - 1]);
    }
  }

  function AllBut(n: nat, k: nat): (keep: seq<bool>)
    ensures |keep| == n
  {
    seq(n, i => i != k)
  }

  lemma {:induction false} FilterAllBut<T>(s: seq<T>, k: nat)
    ensures Filter(s, AllBut(|s|, k)) == if k < |s| then s[..k] + s[k + 1..] else s
  {
    if s != [] {
      var n := |s| - 1;
      FilterSnoc(s, AllBut(|s|, k));
      assert AllBut(|s|, k)[..n] == AllBut(n, k);
      FilterAllBut(s[..n], k);
      hide Filter;
      assert k < n ==> s[..n][..k] + s[..n][k + 1..] + [s[n]] == s[..k] + s[k + 1..];
      assert k == n ==> s[..k] + s[k + 1..] == s[..n];
      assert k > n ==> s[..n] + [s[n]] == s;
    }
  }

  /** The spray, with one call of the victim just late enough to keep it from being swept. */
  function LateSpray(burst: nat, late: real, t: real): seq<Call> {
    Repeat(Call(VICTIM, 0.0), burst) + Fillers(MAX_TRACKED_KEYS, 0.0) + [Call(VICTIM, late)]
      + [Call(Filler(MAX_TRACKED_KEYS), t)] + Repeat(Call(VICTIM, t), burst)
  }

  lemma LateSprayShape(burst: nat, late: real, t: real)
    requires burst >= 1 && 0.0 <= late <= t && late >= t - STALE_KEY_WINDOW
    ensures var log, k := LateSpray(burst, late, t), burst + MAX_TRACKED_KEYS;
      && |log| == k + 2 + burst && log[k] == Call(VICTIM, late)
      && (forall i | 0 <= i < burst :: log[i] == Call(VICTIM, 0.0))
      && (forall i | burst <= i < k :: log[i].key != VICTIM && log[i].at == 0.0)
      && log[k + 1].key != VICTIM && log[k + 1].at == t
      && (forall i | k + 2 <= i < |log| :: log[i] == Call(VICTIM, t))
      && log[..burst] == Repeat(Call(VICTIM, 0.0), burst)
      && log[..k] + log[k + 1..] == Spray(burst, t)
  {
    var log, k := LateSpray(burst, late, t), burst + MAX_TRACKED_KEYS;
    var pre := Repeat(Call(VICTIM, 0.0), burst) + Fillers(MAX_TRACKED_KEYS, 0.0);
    var post := [Call(Filler(MAX_TRACKED_KEYS), t)] + Repeat(Call(VICTIM, t), burst);
    assert log == pre + [Call(VICTIM, late)] + post && |pre| == k;
    assert log[..k] == pre && log[k + 1..] == post;
    assert pre + post == Spray(burst, t);
    assert pre[..burst] == Repeat(Call(VICTIM, 0.0), burst);
  }

  lemma LateSprayFits(burst: nat, late: real, t: real)
    requires burst >= 1 && 0.0 <= late <= t && late >= t - STALE_KEY_WINDOW
    ensures var log := LateSpray(burst, late, t);
      Monotone(log) && InWindow(log, 0, |log|, 0.0, t) && SeenRecently(log, VICTIM)
  {
    LateSprayShape(burst, late, t);
    var log, k := LateSpray(burst, late, t), burst + MAX_TRACKED_KEYS;
    hide LateSpray;
    assert forall i | 0 <= i < |log| :: log[i].at == if i < k then 0.0 else if i == k then late else t;
    forall i | 0 <= i < |log| && log[i].key != VICTIM && Called(log, VICTIM, i)
      ensures exists j | 0 <= j < i :: log[j].key == VICTIM && log[j].at >= log[i].at - STALE_KEY_WINDOW
    {
      var j := if i < k then 0 else k;
      assert 0 <= j < i && log[j].key == VICTIM;
    }
  }

  /** The late call is denied: by then less than a token has come back. */
  lemma LateCallDenied(c: Config, late: real, t: real)
    requires c.limit > 0.0 && c.burst >= 1 && 0.0 <= late <= t && late >= t - STALE_KEY_WINDOW
    requires TokensFromDuration(c, late) < 1.0
    ensures !Answers(c, LateSpray(c.burst, late, t))[c.burst + MAX_TRACKED_KEYS].ok
  {
    hide *;
    var log, n := LateSpray(c.burst, late, t), c.burst;
    var k := LateSprayWithout(n, late, t);
    LateSprayPrefix(n, late, t);
    LateSprayFits(n, late, t);
    FirstSpend(c);
    SeenIsRemembered(c, log, VICTIM);
    OthersLeave(c, log, VICTIM, n, k);
    BothSteps(c, log, k);
    StepOwn(c, Replay(c, log[..k]), log[k]);
    DrainedTake(c, late);
  }

  lemma LateSprayPrefix(burst: nat, late: real, t: real)
    requires burst >= 1 && 0.0 <= late <= t && late >= t - STALE_KEY_WINDOW
    ensures var log, k := LateSpray(burst, late, t), burst + MAX_TRACKED_KEYS;
      && burst <= k < |log| && log[k] == Call(VICTIM, late) && Called(log, VICTIM, burst)
      && (forall i | burst <= i < k :: log[i].key != VICTIM)
      && log[..burst] == Repeat(Call(VICTIM, 0.0), burst)
  {
    LateSprayShape(burst, late, t);
    hide LateSpray, Repeat;
    assert LateSpray(burst, late, t)[0].key == VICTIM;
  }

  /** What a spent bucket does with a call at time t. */
  lemma DrainedTake(c: Config, t: real)
    requires c.limit > 0.0 && c.burst >= 1 && t >= 0.0 && TokensFromDuration(c, t) < 1.0
    ensures !Take(c, Bucket(0.0, 0.0), t).1.ok
  {
    hide TokensFromDuration, DurationFromTokens, Take;
    TakeByLevel(c, Bucket(0.0, 0.0), t);
  }

  /** A moment just past the window: not yet a burst's worth of time, nor a token's beyond it. */
  lemma JustPastWindow(c: Config) returns (t: real, late: real)
    requires c.limit > 0.0 && !RefillsWithinWindow(c)
    ensures c.burst >= 1 && t > STALE_KEY_WINDOW && 0.0 <= late <= t && late >= t - STALE_KEY_WINDOW
    ensures TokensFromDuration(c, t) < c.burst as real && TokensFromDuration(c, late) < 1.0
  {
    WindowRefills(c);
    hide TokensFromDuration, DurationFromTokens, RefillsWithinWindow;
    RefillNonNegative(c, STALE_KEY_WINDOW);
    var far := ShortOfBurst(c);
    var half := DurationFromTokens(c, 0.5);
    WaitRefills(c, 0.5);
    WaitPositive(c, 0.5);
    t := if far < STALE_KEY_WINDOW + half then far else STALE_KEY_WINDOW + half;
    late := t - STALE_KEY_WINDOW;
    RefillMonotone(c, t, far);
    RefillMonotone(c, late, half);
  }

  lemma OnlyLateDropped(c: Config, log: seq<Call>, k: nat)
    requires c.limit > 0.0 && k < |log| && !Answers(c, log)[k].ok
    ensures DropsDenials(Answers(c, log), AllBut(|log|, k))
    ensures forall i | 0 <= i < |log| && !AllBut(|log|, k)[i] :: !Answers(c, log)[i].ok
  {
    hide Answers;
  }

  /** The history of the late spray, and what leaving the late call out makes of it. */
  lemma LateSprayWithout(burst: nat, late: real, t: real) returns (k: nat)
    requires burst >= 1 && 0.0 <= late <= t && late >= t - STALE_KEY_WINDOW
    ensures var log := LateSpray(burst, late, t);
      k == burst + MAX_TRACKED_KEYS < |log| && Filter(log, AllBut(|log|, k)) == Spray(burst, t)
  {
    k := burst + MAX_TRACKED_KEYS;
    LateSprayShape(burst, late, t);
    FilterAllBut(LateSpray(burst, late, t), burst + MAX_TRACKED_KEYS);
  }

  lemma LateCallCosts(c: Config)
    requires c.limit > 0.0 && !RefillsWithinWindow(c)
    ensures !DenialsFree(c)
  {
    hide *;
    var t, late := JustPastWindow(c);
    var n := c.burst;
    var log := LateSpray(n, late, t);
    var k := LateSprayWithout(n, late, t);
    var keep := AllBut(|log|, k);
    LateSprayFits(n, late, t);
    LateCallDenied(c, late, t);
    OnlyLateDropped(c, log, k);
    SeenIsRemembered(c, log, VICTIM);
    RememberedBound(c, log, VICTIM, t);
    SprayGrantsTwice(c, t);
    FilteredGrants(log, Answers(c, log), keep, VICTIM);
    if DenialsFree(c) {
      DenialsFreeAt(c, log, keep);
    }
  }

  lemma DenialsFreeAt(c: Config, log: seq<Call>, keep: seq<bool>)
    requires c.limit > 0.0 && DenialsFree(c)
    requires Monotone(log) && |keep| == |log| && DropsDenials(Answers(c, log), keep)
    ensures Answers(c, Filter(log, keep)) == Filter(Answers(c, log), keep)
  {
    hide Answers, Filter, Monotone, DropsDenials;
  }

  /** Main result: denied calls are free exactly under the same configurations; under any other
      a denied call keeps alive a bucket that would have come back full. */
  lemma DenialsFreeIff(c: Config)
    requires c.limit > 0.0
    ensures DenialsFree(c) <==> c.burst as real <= c.limit * 600.0
  {
    assert RefillsWithinWindow(c) <==> c.burst as real <= c.limit * 600.0;
    hide RefillsWithinWindow, TokensFromDuration, Answers, Filter, Monotone;
    if RefillsWithinWindow(c) {
      forall log: seq<Call>, keep: seq<bool> | Monotone(log) && |keep| == |log| && DropsDenials(Answers(c, log), keep)
        ensures Answers(c, Filter(log, keep)) == Filter(Answers(c, log), keep)
      {
        DeniedCallsAreFree(c, log, keep);
      }
    } else {
      LateCallCosts(c);
    }
  }
}
