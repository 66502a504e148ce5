/** The login endpoint over the limiter, and how many guesses it lets through. */
module LoginGuesses {
  import opened Common
  import opened LoginAttemptLimiter

  datatype Verdict = Accepted | InvalidCredentials | Unavailable

  datatype LoginResponse = SignedIn | Refused | ServerError

  /** Every wrong password recorded for email was verified while it was not locked. */
  ghost predicate Guarded(log: seq<Op>, email: string) {
    forall i | 0 <= i < |log| && log[i].Failure? && log[i].email == email ::
      !LockedIn(Replay(log, i), email, log[i].at)
  }

  lemma GuardedSnoc(log: seq<Op>, op: Op, email: string)
    requires Guarded(log, email)
    requires op.Failure? && op.email == email ==> !LockedIn(Replay(log, |log|), email, op.at)
    ensures Guarded(log + [op], email)
  {
    hide Replay;
    var log' := log + [op];
    forall i | 0 <= i < |log'| && log'[i].Failure? && log'[i].email == email
      ensures !LockedIn(Replay(log', i), email, log'[i].at)
    {
      ReplayKeeps(log, log', i);
    }
  }

  /** One login attempt: check the limiter, verify the password, record the outcome.
      verdict is what the authenticator would say; it is asked only when not locked. */
  method Login(limiter: Limiter, email: string, checkedAt: int, verdict: Verdict, failedAt: int)
    returns (response: LoginResponse, verified: bool)
    requires limiter.Valid() && checkedAt <= failedAt
    modifies limiter
    ensures limiter.Valid()
    ensures verified <==> !LockedIn(Replay(old(limiter.log), |old(limiter.log)|), email, checkedAt)
    ensures response == if !verified || verdict.InvalidCredentials? then Refused
                        else if verdict.Unavailable? then ServerError else SignedIn
    ensures limiter.log == old(limiter.log)
                         + if !verified || verdict.Unavailable? then []
                           else if verdict.Accepted? then [Success(email)] else [Failure(email, failedAt)]
    ensures forall e | old(Guarded(limiter.log, e)) :: Guarded(limiter.log, e)
  {
    ghost var log := limiter.log;
    var locked := limiter.Locked(email, checkedAt);
    if locked {
      return Refused, false;
    }
    verified := true;
    match verdict {
      case InvalidCredentials =>
        var _ := limiter.RecordFailure(email, failedAt);
        response := Refused;
        forall e | Guarded(log, e) ensures Guarded(limiter.log, e) {
          GuardedSnoc(log, Failure(email, failedAt), e);
        }
      case Unavailable =>
        response := ServerError;
      case Accepted =>
        limiter.RecordSuccess(email);
        response := SignedIn;
        forall e | Guarded(log, e) ensures Guarded(limiter.log, e) {
          GuardedSnoc(log, Success(email), e);
        }
    }
  }

  // The guess bound.

  /** When the wrong passwords among calls lo to n were recorded for email. */
  function Attempts(log: seq<Op>, email: string, lo: nat, n: nat): seq<int>
    requires lo <= n <= |log|
  {
    if n == lo then []
    else Attempts(log, email, lo, n - 1) + AttemptOf(log[n - 1], email)
  }

  function AttemptOf(op: Op, email: string): seq<int> {
    if op.Failure? && op.email == email then [op.at] else []
  }

  predicate Sorted(times: seq<int>) {
    forall i, j :: 0 <= i < j < |times| ==> times[i] <= times[j]
  }

  /** More attempts in a row than there is room for span at least a lockout window. */
  predicate Spread(times: seq<int>, room: nat) {
    && Sorted(times)
    && (forall k :: 0 <= k < |times| - room ==> times[k + room] >= times[k] + LOCKOUT_WINDOW)
  }

  /** One attempt at a time: the failures it takes to lock. */
  const ROOM: nat := THRESHOLD + 1

  /** The table's entry is the current run of attempts, and runs are a window apart. */
  ghost predicate Paced(m: Table, times: seq<int>, email: string, now: int) {
    && Spread(times, ROOM)
    && (times != [] ==> times[|times| - 1] <= now)
    && (email !in m ==> times == [] || times[|times| - 1] + LOCKOUT_WINDOW <= now)
    && (email in m ==>
          var st, start := m[email], |times| - m[email].failures;
          && 1 <= st.failures <= THRESHOLD + 1 && start >= 0
          && st.lastActivity == times[|times| - 1]
          && st.lockedUntil == (if st.failures == THRESHOLD + 1 then Some(st.lastActivity + LOCKOUT_WINDOW) else None)
          && (start > 0 ==> times[start] >= times[start - 1] + LOCKOUT_WINDOW))
  }

  lemma SpreadSnoc(times: seq<int>, at: int)
    requires Spread(times, ROOM) && (times != [] ==> times[|times| - 1] <= at)
    requires |times| > THRESHOLD ==> at >= times[|times| - THRESHOLD - 1] + LOCKOUT_WINDOW
    ensures Spread(times + [at], ROOM)
  {}

  /** A run shorter than the threshold began a window after an attempt six places back. */
  lemma SixBack(times: seq<int>, start: int, at: int)
    requires Spread(times, ROOM) && |times| > THRESHOLD && times[|times| - 1] <= at
    requires |times| - THRESHOLD <= start < |times| && times[start] >= times[start - 1] + LOCKOUT_WINDOW
    ensures at >= times[|times| - THRESHOLD - 1] + LOCKOUT_WINDOW
  {
    assert times[|times| - THRESHOLD - 1] <= times[start - 1];
    assert times[start] <= times[|times| - 1];
  }

  lemma AttemptPaced(m: Table, times: seq<int>, email: string, now: int, at: int)
    requires Paced(m, times, email, now) && now <= at && !LockedIn(m, email, at)
    ensures Paced(CountFailure(m, email, at).0, times + [at], email, at)
  {
    var k := |times| - THRESHOLD - 1;
    if k >= 0 {
      if email in m && !Expired(m[email], at) {
        SixBack(times, |times| - m[email].failures, at);
      } else {
        assert times[k] <= times[|times| - 1];
      }
    }
    SpreadSnoc(times, at);
    hide Spread;
  }

  lemma OtherCallPaced(m: Table, times: seq<int>, email: string, now: int, op: Op)
    requires Paced(m, times, email, now) && op.email != email && (op.Failure? ==> now <= op.at)
    ensures Paced(Apply(m, op), times, email, if op.Failure? then op.at else now)
  {
    hide Spread;
  }

  lemma OneAttempt(log: seq<Op>, email: string, lo: nat, n: nat)
    requires lo < n <= |log|
    ensures Attempts(log, email, lo, n) == Attempts(log, email, lo, n - 1) + AttemptOf(log[n - 1], email)
  {}

  lemma GuardedAt(log: seq<Op>, email: string, i: nat)
    requires Guarded(log, email) && i < |log| && log[i].Failure? && log[i].email == email
    ensures !LockedIn(Replay(log, i), email, log[i].at)
  {
    hide Replay, LockedIn;
  }

  lemma NothingPaced(log: seq<Op>, email: string, n: nat, now: int)
    requires n <= |log| && email !in Replay(log, n)
    ensures Paced(Replay(log, n), Attempts(log, email, n, n), email, now)
  {
    hide Replay;
  }

  /** From a moment the limiter knows nothing of the email, and without a login since. */
  lemma {:induction false} AttemptsPaced(log: seq<Op>, email: string, lo: nat, n: nat, now: int)
    requires lo <= n <= |log| && Timely(log, n, now) && Guarded(log, email)
    requires email !in Replay(log, lo) && NoLogin(log, email, lo, n)
    ensures Paced(Replay(log, n), Attempts(log, email, lo, n), email, now)
  {
    hide Replay, Attempts, Paced, Guarded, LockedIn, Apply, CountFailure;
    if n == lo {
      NothingPaced(log, email, lo, now);
    } else {
      var op, m, times := log[n - 1], Replay(log, n - 1), Attempts(log, email, lo, n - 1);
      var instant := if op.Failure? then op.at else now;
      AttemptsPaced(log, email, lo, n - 1, instant);
      OneAttempt(log, email, lo, n);
      ReplayStep(log, n);
      if op.Failure? && op.email == email {
        GuardedAt(log, email, n - 1);
        AttemptPaced(m, times, email, instant, op.at);
        assert Apply(m, op) == CountFailure(m, email, op.at).0 by { FailureCounts(m, op); }
      } else {
        assert times + AttemptOf(op, email) == times;
        OtherCallPaced(m, times, email, instant, op);
      }
      PacedLater(Replay(log, n), Attempts(log, email, lo, n), email, instant, now);
    }
  }

  lemma FailureCounts(m: Table, op: Op)
    requires op.Failure?
    ensures Apply(m, op) == CountFailure(m, op.email, op.at).0
  {
    hide CountFailure;
  }

  /** No login of email among calls lo to hi. */
  predicate NoLogin(log: seq<Op>, email: string, lo: nat, hi: nat)
    requires lo <= hi <= |log|
  {
    forall i | lo <= i < hi :: log[i] != Success(email)
  }

  lemma PacedLater(m: Table, times: seq<int>, email: string, now: int, later: int)
    requires Paced(m, times, email, now) && now <= later
    ensures Paced(m, times, email, later)
  {}

  /** How many of times fall in the closed window of the given length. */
  function CountIn(times: seq<int>, start: int, length: nat): nat {
    if times == [] then 0
    else
      var n := |times| - 1;
      CountIn(times[..n], start, length) + if start <= times[n] <= start + length then 1 else 0
  }

  lemma WindowsIn(length: nat)
    requires length >= LOCKOUT_WINDOW
    ensures length / LOCKOUT_WINDOW == (length - LOCKOUT_WINDOW) / LOCKOUT_WINDOW + 1
  {}

  lemma MoreRoom(room: nat, windows: nat)
    ensures room * (windows + 1) == room * windows + room >= room
  {}

  lemma {:induction false} SpreadCount(times: seq<int>, room: nat, lo: nat, length: nat)
    requires room > 0 && Spread(times, room) && lo < |times| && times[|times| - 1] - times[lo] <= length
    ensures |times| - lo <= room * (length / LOCKOUT_WINDOW + 1)
    decreases |times| - lo
  {
    var next := lo + room;
    MoreRoom(room, length / LOCKOUT_WINDOW);
    if next < |times| {
      assert times[next] >= times[lo] + LOCKOUT_WINDOW;
      assert times[next] <= times[|times| - 1];
      hide Spread;
      SpreadCount(times, room, next, length - LOCKOUT_WINDOW);
      WindowsIn(length);
    }
  }

  /** In times that end inside the window, those inside it are the last ones. */
  lemma {:induction false} CountIsSuffix(times: seq<int>, start: int, length: nat) returns (lo: nat)
    requires Sorted(times) && forall i | 0 <= i < |times| :: times[i] <= start + length
    ensures lo <= |times| && CountIn(times, start, length) == |times| - lo
    ensures lo < |times| ==> start <= times[lo]
  {
    if times == [] {
      return 0;
    }
    var n := |times| - 1;
    if times[n] < start {
      NoneIn(times, start, length);
      return |times|;
    }
    lo := CountIsSuffix(times[..n], start, length);
  }

  lemma {:induction false} NoneIn(times: seq<int>, start: int, length: nat)
    requires forall i | 0 <= i < |times| :: times[i] < start
    ensures CountIn(times, start, length) == 0
  {
    if times != [] {
      NoneIn(times[..|times| - 1], start, length);
    }
  }

  lemma SpreadPrefix(times: seq<int>, room: nat)
    requires Spread(times, room) && times != []
    ensures Spread(times[..|times| - 1], room)
  {}

  /** So no window holds more than fill the room once for each lockout window in it. */
  lemma {:induction false} SpreadBound(times: seq<int>, room: nat, start: int, length: nat)
    requires room > 0 && Spread(times, room)
    ensures CountIn(times, start, length) <= room * (length / LOCKOUT_WINDOW + 1)
  {
    MoreRoom(room, length / LOCKOUT_WINDOW);
    if times != [] {
      var n := |times| - 1;
      if times[n] > start + length {
        SpreadPrefix(times, room);
        SpreadBound(times[..n], room, start, length);
      } else {
        var lo := CountIsSuffix(times, start, length);
        if lo < |times| {
          SpreadCount(times, room, lo, length);
        }
      }
    }
  }

  /** Where the stretch without a login that reaches call lo begins: the email is unknown there. */
  lemma {:induction false} StretchStart(log: seq<Op>, email: string, lo: nat) returns (first: nat)
    requires lo <= |log|
    ensures first <= lo && email !in Replay(log, first) && NoLogin(log, email, first, lo)
  {
    first := lo;
    if lo > 0 && log[lo - 1] != Success(email) {
      first := StretchStart(log, email, lo - 1);
    }
  }

  /** Attempts of a later stretch are among those of an earlier one. */
  lemma {:induction false} CountInLater(log: seq<Op>, email: string, first: nat, lo: nat, n: nat, start: int, length: nat)
    requires first <= lo <= n <= |log|
    ensures CountIn(Attempts(log, email, lo, n), start, length) <= CountIn(Attempts(log, email, first, n), start, length)
  {
    hide CountIn;
    if n > lo {
      CountInLater(log, email, first, lo, n - 1, start, length);
      OneAttempt(log, email, lo, n);
      OneAttempt(log, email, first, n);
      hide Attempts;
      CountInAppend(Attempts(log, email, lo, n - 1), AttemptOf(log[n - 1], email), start, length);
      CountInAppend(Attempts(log, email, first, n - 1), AttemptOf(log[n - 1], email), start, length);
    } else {
      assert CountIn([], start, length) == 0 by { CountInNothing(start, length); }
    }
  }

  lemma CountInNothing(start: int, length: nat)
    ensures CountIn([], start, length) == 0
  {}

  lemma CountInAppend(times: seq<int>, more: seq<int>, start: int, length: nat)
    requires |more| <= 1
    ensures CountIn(times + more, start, length) == CountIn(times, start, length) + CountIn(more, start, length)
  {
    if more == [] {
      assert times + more == times;
    } else {
      assert (times + more)[..|times|] == times && more[..0] == [];
    }
  }

  /** Main result: attempts made one at a time through Login verify at most
      6 * (length / 15 minutes + 1) wrong passwords in any window of that length in which the
      email does not log in, whenever it last did and whatever happens to other emails. */
  lemma GuessBound(log: seq<Op>, email: string, lo: nat, hi: nat, now: int, start: int, length: nat)
    requires lo <= hi <= |log| && Timely(log, hi, now) && Guarded(log, email) && NoLogin(log, email, lo, hi)
    ensures CountIn(Attempts(log, email, lo, hi), start, length) <= 6 * (length / 900_000_000_000 + 1)
  {
    hide Replay, Attempts, CountIn, Guarded;
    var first := StretchStart(log, email, lo);
    AttemptsPaced(log, email, first, hi, now);
    SpreadBound(Attempts(log, email, first, hi), ROOM, start, length);
    CountInLater(log, email, first, lo, hi, start, length);
  }

  // The bound is met, for windows of any length.

  /** Six wrong passwords as soon as each lockout ends: attempt i comes in round i / 6. */
  function RoundAt(now: int, i: nat): int {
    now + i / ROOM * LOCKOUT_WINDOW
  }

  function Rounds(email: string, now: int, n: nat): seq<Op> {
    seq(n, i requires 0 <= i => Failure(email, RoundAt(now, i)))
  }

  /** The entry after n > 0 of these attempts. */
  function StateOf(n: nat, now: int): AttemptState
    requires n > 0
  {
    var at := RoundAt(now, n - 1);
    AttemptState((n - 1) % ROOM + 1, if n % ROOM == 0 then Some(at + LOCKOUT_WINDOW) else None, at)
  }

  function TableOf(email: string, n: nat, now: int): Table {
    if n == 0 then map[] else map[email := StateOf(n, now)]
  }

  lemma RoundMod(n: nat)
    requires n > 0
    ensures n % ROOM == 0 ==> n / ROOM == (n - 1) / ROOM + 1 && (n - 1) % ROOM + 1 == ROOM
    ensures n % ROOM != 0 ==> n / ROOM == (n - 1) / ROOM && n % ROOM == (n - 1) % ROOM + 1
  {
    var q, r := n / ROOM, n % ROOM;
    if r == 0 {
      assert n - 1 == (q - 1) * ROOM + (ROOM - 1);
    } else {
      assert n - 1 == q * ROOM + (r - 1);
    }
  }

  lemma RoundStep(now: int, n: nat)
    requires n > 0
    ensures n % ROOM == 0 ==> RoundAt(now, n) == RoundAt(now, n - 1) + LOCKOUT_WINDOW && (n - 1) % ROOM + 1 == ROOM
    ensures n % ROOM != 0 ==> RoundAt(now, n) == RoundAt(now, n - 1) && n % ROOM == (n - 1) % ROOM + 1
    ensures (n + 1) % ROOM == 0 <==> n % ROOM + 1 == ROOM
  {
    RoundMod(n);
    RoundMod(n + 1);
  }

  lemma FailAlone(email: string, st: AttemptState, at: int)
    ensures CountFailure(map[email := st], email, at).0
      == map[email := CountFailure(map[email := st], email, at).0[email]]
    ensures CountFailure(map[], email, at).0 == map[email := AttemptState(1, None, at)]
  {}

  lemma NextRound(email: string, now: int, n: nat)
    ensures !LockedIn(TableOf(email, n, now), email, RoundAt(now, n))
    ensures CountFailure(TableOf(email, n, now), email, RoundAt(now, n)).0 == TableOf(email, n + 1, now)
  {
    hide RoundAt;
    var at := RoundAt(now, n);
    if n == 0 {
      FailAlone(email, StateOf(1, now), at);
    } else {
      RoundStep(now, n);
      FailAlone(email, StateOf(n, now), at);
    }
  }

  lemma {:induction false} RoundsReplay(email: string, now: int, total: nat, n: nat)
    requires n <= total
    ensures var log := Rounds(email, now, total);
      && Replay(log, n) == TableOf(email, n, now)
      && Attempts(log, email, 0, n) == seq(n, i requires 0 <= i => RoundAt(now, i))
  {
    if n > 0 {
      RoundsReplay(email, now, total, n - 1);
      NextRound(email, now, n - 1);
      var log := Rounds(email, now, total);
      assert log[n - 1] == Failure(email, RoundAt(now, n - 1));
      hide Replay, Attempts, CountFailure, TableOf, RoundAt, Rounds;
      OneFailure(log, email, RoundAt(now, n - 1), n);
    }
  }

  lemma RoundsInWindow(now: int, length: nat, i: nat)
    requires i < ROOM * (length / LOCKOUT_WINDOW + 1)
    ensures now <= RoundAt(now, i) <= now + length
  {}

  lemma RoundsTimely(email: string, now: int, n: nat, later: int)
    requires forall i | 0 <= i < n :: RoundAt(now, i) <= later
    ensures Timely(Rounds(email, now, n), n, later)
  {
    var log := Rounds(email, now, n);
    forall i, j | 0 <= i < j < n
      ensures log[i].at <= log[j].at
    {
      assert RoundAt(now, i) <= RoundAt(now, j);
    }
  }

  lemma RoundsGuarded(email: string, now: int, n: nat)
    ensures Guarded(Rounds(email, now, n), email)
  {
    hide Replay, TableOf, RoundAt;
    var log := Rounds(email, now, n);
    forall i | 0 <= i < |log|
      ensures !LockedIn(Replay(log, i), email, log[i].at)
    {
      RoundsReplay(email, now, n, i);
      NextRound(email, now, i);
    }
  }

  lemma LockedAfter(email: string, now: int, length: nat)
    ensures LockedIn(TableOf(email, ROOM * (length / LOCKOUT_WINDOW + 1), now), email, now + length)
  {}

  /** For every length some history, of attempts made one at a time, meets the bound: six wrong
      passwords at a time go through, not five. */
  lemma GuessBoundIsMet(email: string, now: int, length: nat)
    ensures var n := 6 * (length / 900_000_000_000 + 1);
      var log := Rounds(email, now, n);
      && Timely(log, n, now + length) && Guarded(log, email) && NoLogin(log, email, 0, n)
      && CountIn(Attempts(log, email, 0, n), now, length) == n
      && LockedIn(Replay(log, n), email, now + length)
  {
    var n := ROOM * (length / LOCKOUT_WINDOW + 1);
    var log := Rounds(email, now, n);
    forall i | 0 <= i < n
      ensures now <= RoundAt(now, i) <= now + length
    {
      RoundsInWindow(now, length, i);
    }
    LockedAfter(email, now, length);
    assert NoLogin(log, email, 0, n);
    hide Replay, Attempts, CountIn, Timely, Guarded, TableOf, RoundAt, Rounds;
    RoundsTimely(email, now, n, now + length);
    RoundsGuarded(email, now, n);
    RoundsReplay(email, now, n, n);
    AllIn(Attempts(log, email, 0, n), now, length);
  }

  lemma OneFailure(log: seq<Op>, email: string, now: int, n: nat)
    requires 0 < n <= |log| && log[n - 1] == Failure(email, now)
    ensures Replay(log, n) == CountFailure(Replay(log, n - 1), email, now).0
    ensures Attempts(log, email, 0, n) == Attempts(log, email, 0, n - 1) + [now]
  {
    hide CountFailure;
  }

  lemma {:induction false} AllIn(times: seq<int>, start: int, length: nat)
    requires forall i | 0 <= i < |times| :: start <= times[i] <= start + length
    ensures CountIn(times, start, length) == |times|
  {
    if times != [] {
      AllIn(times[..|times| - 1], start, length);
    }
  }
}
