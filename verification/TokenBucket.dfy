/** One key's token bucket, as golang.org/x/time/rate keeps it: a token count and
    the instant it was computed for. Times are seconds, tokens are reals. */
module TokenBucket {

  /** limit is in tokens per second; burst is the bucket's capacity. */
  datatype Config = Config(limit: real, burst: int)

  datatype Bucket = Bucket(tokens: real, last: real)

  datatype Answer = Answer(retryAfter: real, ok: bool)

  datatype Reservation = Reservation(ok: bool, delay: real, bucket: Bucket)

  function TokensFromDuration(c: Config, d: real): real {
    c.limit * d
  }

  function DurationFromTokens(c: Config, tokens: real): real
    requires c.limit > 0.0
  {
    tokens / c.limit
  }

  function Full(c: Config, now: real): Bucket {
    Bucket(c.burst as real, now)
  }

  /** The tokens a bucket holds at time t. A clock running backwards refills nothing. */
  function Level(c: Config, b: Bucket, t: real): real {
    var elapsed := if t < b.last then 0.0 else t - b.last;
    var tokens := b.tokens + TokensFromDuration(c, elapsed);
    if tokens > c.burst as real then c.burst as real else tokens
  }

  function ReserveOne(c: Config, b: Bucket, t: real): Reservation
    requires c.limit > 0.0
  {
    var tokens := Level(c, b, t) - 1.0;
    var delay := if tokens < 0.0 then DurationFromTokens(c, -tokens) else 0.0;
    if 1 <= c.burst then Reservation(true, delay, Bucket(tokens, t)) else Reservation(false, 0.0, b)
  }

  function CancelOne(c: Config, b: Bucket, t: real): Bucket {
    var tokens := Level(c, b, t) + 1.0;
    Bucket(if tokens > c.burst as real then c.burst as real else tokens, t)
  }

  /** Reserve a token; when it is not available yet, hand it back and report the wait. */
  function Take(c: Config, b: Bucket, t: real): (Bucket, Answer)
    requires c.limit > 0.0
  {
    var res := ReserveOne(c, b, t);
    if !res.ok then (res.bucket, Answer(0.0, false))
    else if res.delay > 0.0 then (CancelOne(c, res.bucket, t), Answer(res.delay, false))
    else (res.bucket, Answer(0.0, true))
  }

  /** A bucket some sequence of calls can produce. */
  predicate Sound(c: Config, b: Bucket) {
    0.0 <= b.tokens <= c.burst as real
  }

  // Refilling is linear in time. These facts are all that is used of the arithmetic.

  lemma NoRefill(c: Config)
    ensures TokensFromDuration(c, 0.0) == 0.0
  {}

  lemma RefillOf(c: Config, d: real)
    ensures TokensFromDuration(c, d) == c.limit * d
  {}

  lemma RefillBetween(c: Config, x: real, y: real)
    ensures TokensFromDuration(c, y - x) == TokensFromDuration(c, y) - TokensFromDuration(c, x)
  {}

  lemma RefillMonotone(c: Config, x: real, y: real)
    requires c.limit > 0.0
    ensures x <= y <==> TokensFromDuration(c, x) <= TokensFromDuration(c, y)
  {
    if x < y {
      assert c.limit * (y - x) > 0.0;
    } else if y < x {
      assert c.limit * (x - y) > 0.0;
    }
  }

  lemma WaitRefills(c: Config, tokens: real)
    requires c.limit > 0.0
    ensures TokensFromDuration(c, DurationFromTokens(c, tokens)) == tokens
  {}

  lemma RefillNonNegative(c: Config, d: real)
    requires c.limit > 0.0 && d >= 0.0
    ensures TokensFromDuration(c, d) >= 0.0
  {
    NoRefill(c);
    RefillMonotone(c, 0.0, d);
  }

  lemma WaitPositive(c: Config, tokens: real)
    requires c.limit > 0.0
    ensures DurationFromTokens(c, tokens) > 0.0 <==> tokens > 0.0
  {
    hide TokensFromDuration, DurationFromTokens;
    NoRefill(c);
    WaitRefills(c, tokens);
    RefillMonotone(c, DurationFromTokens(c, tokens), 0.0);
  }

  /** What one call does, in terms of the level it finds: it is granted exactly when a
      whole token is there, and a denial leaves the level as it was. */
  lemma TakeByLevel(c: Config, b: Bucket, t: real)
    requires c.limit > 0.0 && c.burst >= 1 && Sound(c, b)
    ensures 0.0 <= Level(c, b, t) <= c.burst as real
    ensures var level := Level(c, b, t); var (b', a) := Take(c, b, t);
      && Sound(c, b')
      && b' == Bucket(if a.ok then level - 1.0 else level, t)
      && (a.ok <==> level >= 1.0)
      && (if a.ok then a.retryAfter == 0.0
          else a.retryAfter > 0.0 && TokensFromDuration(c, a.retryAfter) == 1.0 - level)
  {
    hide TokensFromDuration, DurationFromTokens;
    var level := Level(c, b, t);
    NoRefill(c);
    RefillNonNegative(c, if t < b.last then 0.0 else t - b.last);
    WaitPositive(c, 1.0 - level);
    WaitRefills(c, 1.0 - level);
    assert -(level - 1.0) == 1.0 - level;
  }

  /** A denial names the time the missing part of a token takes at the configured limit. */
  lemma DenialWait(c: Config, b: Bucket, t: real)
    requires c.limit > 0.0 && c.burst >= 1 && Sound(c, b) && Level(c, b, t) < 1.0
    ensures Take(c, b, t).1 == Answer((1.0 - Level(c, b, t)) / c.limit, false)
  {
    var level := Level(c, b, t);
    assert DurationFromTokens(c, -(level - 1.0)) == (1.0 - level) / c.limit by {
      assert -(level - 1.0) == 1.0 - level;
    }
    hide TokensFromDuration, DurationFromTokens, Level;
    WaitPositive(c, -(level - 1.0));
  }

  /** A bucket gains the limit's worth of tokens a second up to its burst, and nothing while
      the clock runs backwards. */
  lemma LevelAfter(c: Config, b: Bucket, t: real, gained: real)
    requires c.limit > 0.0 && gained == c.limit * (t - b.last)
    ensures t >= b.last ==>
      Level(c, b, t) == if b.tokens + gained > c.burst as real then c.burst as real else b.tokens + gained
    ensures t < b.last && b.tokens <= c.burst as real ==> Level(c, b, t) == b.tokens
  {
    NoRefill(c);
    assert TokensFromDuration(c, t - b.last) == gained;
    hide TokensFromDuration;
  }

  /** Without a burst every call is denied at once and the bucket left alone. */
  lemma NoBurst(c: Config, b: Bucket, t: real)
    requires c.limit > 0.0 && c.burst < 1
    ensures Take(c, b, t) == (b, Answer(0.0, false))
  {}

  /** Refilling to t and then to t' is refilling to t' (the cap does not interfere). */
  lemma LevelComposes(c: Config, b: Bucket, t: real, t': real)
    requires c.limit > 0.0 && b.last <= t <= t' && b.tokens <= c.burst as real
    ensures Level(c, Bucket(Level(c, b, t), t), t') == Level(c, b, t')
  {
    hide TokensFromDuration;
    RefillBetween(c, b.last, t);
    RefillBetween(c, b.last, t');
    RefillBetween(c, t, t');
    RefillNonNegative(c, t' - t);
  }

  lemma LevelGrows(c: Config, b: Bucket, t: real, t': real)
    requires c.limit > 0.0 && b.last <= t <= t' && b.tokens <= c.burst as real
    ensures Level(c, b, t) <= Level(c, b, t') <= Level(c, b, t) + TokensFromDuration(c, t' - t)
  {
    hide TokensFromDuration;
    RefillBetween(c, b.last, t);
    RefillBetween(c, b.last, t');
    RefillBetween(c, t, t');
    RefillNonNegative(c, t' - t);
  }
}
