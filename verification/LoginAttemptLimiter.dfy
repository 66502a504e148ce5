/** Strike counting per email, as one table replayed from the calls made on it.
    Times are nanoseconds. */
module LoginAttemptLimiter {
  import opened Common

  const THRESHOLD := 5
  const LOCKOUT_WINDOW := 900_000_000_000
  const MAX_TRACKED_ACCOUNTS := 10_000

  /** lockedUntil is None where the source keeps the zero time. */
  datatype AttemptState = AttemptState(failures: nat, lockedUntil: Option<int>, lastActivity: int)

  type Table = map<string, AttemptState>

  datatype Op = Failure(email: string, at: int) | Success(email: string)

  predicate Stale(st: AttemptState, now: int) {
    st.lastActivity < now - LOCKOUT_WINDOW
  }

  function Sweep(m: Table, now: int): Table {
    map email | email in m && !Stale(m[email], now) :: m[email]
  }

  predicate Expired(st: AttemptState, now: int) {
    st.lockedUntil.Some? && now >= st.lockedUntil.value
  }

  predicate LockedIn(m: Table, email: string, now: int) {
    email in m && m[email].lockedUntil.Some? && now < m[email].lockedUntil.value
  }

  /** Whether recording a failure sweeps the table first. */
  predicate Sweeps(m: Table, email: string) {
    email !in m && |m| >= MAX_TRACKED_ACCOUNTS
  }

  /** The table after a failure, and whether that failure crossed the threshold. */
  function CountFailure(m: Table, email: string, now: int): (Table, bool) {
    var failures := if email !in m || Expired(m[email], now) then 1 else m[email].failures + 1;
    var lockedUntil := if email !in m || Expired(m[email], now) then None else m[email].lockedUntil;
    var crossed := failures == THRESHOLD + 1;
    var st := AttemptState(failures, if crossed then Some(now + LOCKOUT_WINDOW) else lockedUntil, now);
    ((if Sweeps(m, email) then Sweep(m, now) else m)[email := st], crossed)
  }

  function Apply(m: Table, op: Op): Table {
    match op
    case Failure(email, at) => CountFailure(m, email, at).0
    case Success(email) => m - {email}
  }

  /** The table after the first n calls of a history on a fresh limiter. */
  function Replay(log: seq<Op>, n: nat): Table
    requires n <= |log|
  {
    if n == 0 then map[] else Apply(Replay(log, n - 1), log[n - 1])
  }

  lemma ReplayStep(log: seq<Op>, n: nat)
    requires n <= |log|
    ensures n == 0 ==> Replay(log, n) == map[]
    ensures n > 0 ==> Replay(log, n) == Apply(Replay(log, n - 1), log[n - 1])
  {
    hide Apply;
  }

  /** Whether call i of a history reported a lockout. */
  predicate Reported(log: seq<Op>, i: nat)
    requires i < |log|
  {
    log[i].Failure? && CountFailure(Replay(log, i), log[i].email, log[i].at).1
  }

  /** The clock never runs backwards along the first n calls, and now is not before them. */
  predicate Timely(log: seq<Op>, n: nat, now: int)
    requires n <= |log|
  {
    && (forall i, j :: 0 <= i < j < n && log[i].Failure? && log[j].Failure? ==> log[i].at <= log[j].at)
    && (forall i | 0 <= i < n && log[i].Failure? :: log[i].at <= now)
  }

  /** The instant of the last of the first n calls, if it has one; those before it are timely then. */
  function Instant(log: seq<Op>, n: nat, now: int): int
    requires 0 < n <= |log|
  {
    if log[n - 1].Failure? then log[n - 1].at else now
  }

  lemma TimelyBefore(log: seq<Op>, n: nat, now: int)
    requires 0 < n <= |log| && Timely(log, n, now)
    ensures Timely(log, n - 1, Instant(log, n, now)) && Instant(log, n, now) <= now
  {}

  /** Later calls do not change what earlier ones did. */
  lemma {:induction false} ReplayKeeps(log: seq<Op>, log': seq<Op>, n: nat)
    requires n <= |log| && log <= log'
    ensures Replay(log', n) == Replay(log, n)
  {
    if n > 0 {
      ReplayKeeps(log, log', n - 1);
    }
  }

  lemma ReplaySnoc(log: seq<Op>, op: Op)
    ensures Replay(log + [op], |log| + 1) == Apply(Replay(log, |log|), op)
    ensures Reported(log + [op], |log|) <==> op.Failure? && CountFailure(Replay(log, |log|), op.email, op.at).1
  {
    ReplayKeeps(log, log + [op], |log|);
  }

  class Limiter {
    var state: Table
    ghost var log: seq<Op>

    ghost predicate Valid()
      reads this
    {
      state == Replay(log, |log|)
    }

    constructor ()
      ensures Valid() && log == []
    {
      state := map[];
      log := [];
    }

    method Locked(email: string, now: int) returns (locked: bool)
      requires Valid()
      ensures locked <==> LockedIn(Replay(log, |log|), email, now)
    {
      if email !in state {
        return false;
      }
      var st := state[email];
      return st.lockedUntil.Some? && now < st.lockedUntil.value;
    }

    /** lockedOut is reported on the failure that crosses the threshold. */
    method RecordFailure(email: string, now: int) returns (lockedOut: bool)
      requires Valid()
      modifies this
      ensures Valid() && log == old(log) + [Failure(email, now)]
      ensures lockedOut <==> Reported(log, |log| - 1)
    {
      ReplaySnoc(log, Failure(email, now));
      hide Replay, Reported;
      log := log + [Failure(email, now)];
      var st;
      if email !in state {
        if |state| >= MAX_TRACKED_ACCOUNTS {
          EvictStale(now);
        }
        st := AttemptState(0, None, now);
      } else {
        st := state[email];
        if st.lockedUntil.Some? && !(now < st.lockedUntil.value) {
          st := st.(failures := 0, lockedUntil := None);
        }
      }
      st := st.(failures := st.failures + 1, lastActivity := now);
      lockedOut := false;
      if st.failures == THRESHOLD + 1 {
        st := st.(lockedUntil := Some(now + LOCKOUT_WINDOW));
        lockedOut := true;
      }
      state := state[email := st];
    }

    method RecordSuccess(email: string)
      requires Valid()
      modifies this
      ensures Valid() && log == old(log) + [Success(email)]
    {
      ReplaySnoc(log, Success(email));
      log := log + [Success(email)];
      state := state - {email};
    }

    method EvictStale(now: int)
      modifies this`state
      ensures state == Sweep(old(state), now)
    {
      var pending := state.Keys;
      while pending != {}
        invariant pending <= state.Keys
        invariant state == map e | e in old(state) && (e in pending || !Stale(old(state)[e], now)) :: old(state)[e]
        decreases |pending|
      {
        var email :| email in pending;
        if Stale(state[email], now) {
          state := state - {email};
        }
        pending := pending - {email};
      }
    }
  }
}
