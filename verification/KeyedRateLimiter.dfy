/** The bounded map of token buckets, and the unbounded map it stands in for. */
module KeyedRateLimiter {
  import opened TokenBucket

  const MAX_TRACKED_KEYS := 10_000
  const STALE_KEY_WINDOW := 600.0

  datatype Entry = Entry(bucket: Bucket, lastSeen: real)

  type Table = map<string, Entry>

  datatype Call = Call(key: string, at: real)

  predicate Stale(e: Entry, now: real) {
    e.lastSeen < now - STALE_KEY_WINDOW
  }

  function Sweep(m: Table, now: real): Table {
    map key | key in m && !Stale(m[key], now) :: m[key]
  }

  /** The table once the caller's entry exists and is marked as seen. */
  function Touch(c: Config, m: Table, key: string, now: real): (m': Table)
    ensures key in m'
  {
    if key in m then m[key := Entry(m[key].bucket, now)]
    else (if |m| >= MAX_TRACKED_KEYS then Sweep(m, now) else m)[key := Entry(Full(c, now), now)]
  }

  function Step(c: Config, m: Table, call: Call): (Table, Answer)
    requires c.limit > 0.0
  {
    var m' := Touch(c, m, call.key, call.at);
    var (b, a) := Take(c, m'[call.key].bucket, call.at);
    (m'[call.key := Entry(b, call.at)], a)
  }

  /** The table after a history of calls on a fresh limiter. */
  function Replay(c: Config, log: seq<Call>): Table
    requires c.limit > 0.0
  {
    if log == [] then map[] else Step(c, Replay(c, log[..|log| - 1]), log[|log| - 1]).0
  }

  function AnswerAt(c: Config, log: seq<Call>, i: nat): Answer
    requires c.limit > 0.0 && i < |log|
  {
    Step(c, Replay(c, log[..i]), log[i]).1
  }

  /** What each call of a history was told. */
  function Answers(c: Config, log: seq<Call>): (answers: seq<Answer>)
    requires c.limit > 0.0
    ensures |answers| == |log|
  {
    seq(|log|, i requires 0 <= i < |log| => AnswerAt(c, log, i))
  }

  // The reference: one bucket per key, never forgotten.

  function KeptStep(c: Config, r: map<string, Bucket>, call: Call): (map<string, Bucket>, Answer)
    requires c.limit > 0.0
  {
    var (b, a) := Take(c, if call.key in r then r[call.key] else Full(c, call.at), call.at);
    (r[call.key := b], a)
  }

  function KeptReplay(c: Config, log: seq<Call>): map<string, Bucket>
    requires c.limit > 0.0
  {
    if log == [] then map[] else KeptStep(c, KeptReplay(c, log[..|log| - 1]), log[|log| - 1]).0
  }

  function KeptAnswerAt(c: Config, log: seq<Call>, i: nat): Answer
    requires c.limit > 0.0 && i < |log|
  {
    KeptStep(c, KeptReplay(c, log[..i]), log[i]).1
  }

  function KeptAnswers(c: Config, log: seq<Call>): (answers: seq<Answer>)
    requires c.limit > 0.0
    ensures |answers| == |log|
  {
    seq(|log|, i requires 0 <= i < |log| => KeptAnswerAt(c, log, i))
  }

  /** The clock never runs backwards along a history. */
  predicate Monotone(log: seq<Call>) {
    forall i, j :: 0 <= i < j < |log| ==> log[i].at <= log[j].at
  }

  lemma MonotonePrefix(log: seq<Call>, n: nat)
    requires Monotone(log) && n <= |log|
    ensures Monotone(log[..n]) && (0 < n < |log| ==> log[n - 1].at <= log[n].at)
  {}

  lemma AnswersOfPrefix(c: Config, log: seq<Call>, n: nat)
    requires c.limit > 0.0 && n <= |log|
    ensures Answers(c, log[..n]) == Answers(c, log)[..n]
    ensures KeptAnswers(c, log[..n]) == KeptAnswers(c, log)[..n]
  {
    hide Step, KeptStep;
    forall i | 0 <= i < n
      ensures AnswerAt(c, log[..n], i) == AnswerAt(c, log, i)
      ensures KeptAnswerAt(c, log[..n], i) == KeptAnswerAt(c, log, i)
    {
      assert log[..n][..i] == log[..i];
    }
  }

  lemma Snoc(c: Config, log: seq<Call>, call: Call)
    requires c.limit > 0.0
    ensures Replay(c, log + [call]) == Step(c, Replay(c, log), call).0
    ensures Answers(c, log + [call]) == Answers(c, log) + [Step(c, Replay(c, log), call).1]
  {
    hide Step;
    AnswersOfPrefix(c, log + [call], |log|);
    assert (log + [call])[..|log|] == log;
  }

  lemma KeptSnoc(c: Config, log: seq<Call>, call: Call)
    requires c.limit > 0.0
    ensures KeptReplay(c, log + [call]) == KeptStep(c, KeptReplay(c, log), call).0
    ensures KeptAnswers(c, log + [call]) == KeptAnswers(c, log) + [KeptStep(c, KeptReplay(c, log), call).1]
  {
    hide KeptStep;
    AnswersOfPrefix(c, log + [call], |log|);
    assert (log + [call])[..|log|] == log;
  }

  /** The limiter itself. log is the history of its calls; Valid ties the real table to it. */
  class Limiter {
    const config: Config
    var state: Table
    ghost var log: seq<Call>

    ghost predicate Valid()
      reads this
    {
      config.limit > 0.0 && state == Replay(config, log)
    }

    constructor (limit: real, burst: int)
      requires limit > 0.0
      ensures Valid() && log == [] && config == Config(limit, burst)
    {
      config := Config(limit, burst);
      state := map[];
      log := [];
    }

    /** Whether key may act now, and how long it must wait when it may not. */
    method Allow(key: string, now: real) returns (retryAfter: real, ok: bool)
      requires Valid()
      modifies this
      ensures Valid() && log == old(log) + [Call(key, now)]
      ensures Answers(config, log) == old(Answers(config, log)) + [Answer(retryAfter, ok)]
    {
      Snoc(config, log, Call(key, now));
      var bucket := LimiterFor(key, now);
      var res := ReserveOne(config, bucket, now);
      if !res.ok {
        retryAfter, ok := 0.0, false;
      } else if res.delay > 0.0 {
        state := state[key := state[key].(bucket := CancelOne(config, res.bucket, now))];
        retryAfter, ok := res.delay, false;
      } else {
        state := state[key := state[key].(bucket := res.bucket)];
        retryAfter, ok := 0.0, true;
      }
      log := log + [Call(key, now)];
    }

    /** Key's own bucket, built on first use. */
    method LimiterFor(key: string, now: real) returns (bucket: Bucket)
      modifies this`state
      ensures state == Touch(config, old(state), key, now) && bucket == state[key].bucket
    {
      if key in state {
        state := state[key := state[key].(lastSeen := now)];
      } else {
        if |state| >= MAX_TRACKED_KEYS {
          EvictStale(now);
        }
        state := state[key := Entry(Full(config, now), now)];
      }
      bucket := state[key].bucket;
    }

    method EvictStale(now: real)
      modifies this`state
      ensures state == Sweep(old(state), now)
    {
      var pending := state.Keys;
      while pending != {}
        invariant pending <= state.Keys
        invariant state == map key | key in old(state) && (key in pending || !Stale(old(state)[key], now)) :: old(state)[key]
        decreases |pending|
      {
        var key :| key in pending;
        if Stale(state[key], now) {
          state := state - {key};
        }
        pending := pending - {key};
      }
    }
  }
}
