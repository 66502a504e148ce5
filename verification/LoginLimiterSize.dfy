/** How large the login limiter's map may grow. */
module LoginLimiterSize {
  import opened Common
  import opened LoginAttemptLimiter

  function NextInsertion(m: Table, op: Op, last: Option<int>): Option<int> {
    if op.Failure? && op.email !in m then Some(op.at) else last
  }

  /** When the newest entry among the first n calls was inserted. */
  function LastInsertion(log: seq<Op>, n: nat): Option<int>
    requires n <= |log|
  {
    if n == 0 then None else NextInsertion(Replay(log, n - 1), log[n - 1], LastInsertion(log, n - 1))
  }

  lemma LastCall(log: seq<Op>, n: nat)
    requires n <= |log|
    ensures n == 0 ==> LastInsertion(log, n) == None
    ensures n > 0 ==>
      LastInsertion(log, n) == NextInsertion(Replay(log, n - 1), log[n - 1], LastInsertion(log, n - 1))
  {
    hide Replay;
  }

  lemma {:induction false} InsertedByNow(log: seq<Op>, n: nat, now: int)
    requires n <= |log| && Timely(log, n, now)
    ensures LastInsertion(log, n).Some? ==> LastInsertion(log, n).value <= now
  {
    hide Replay;
    if n > 0 {
      InsertedByNow(log, n - 1, now);
    }
  }

  /** What one call does to the emails and to when they were last active. */
  lemma CallKeys(m: Table, op: Op)
    ensures var m' := Apply(m, op);
      && (op.Failure? ==> op.email in m' && m'[op.email].lastActivity == op.at)
      && (op.Success? ==> op.email !in m')
      && (forall e | e in m' && e != op.email :: e in m && m'[e] == m[e])
      && (forall e | e in m && e !in m' && e != op.email :: op.Failure? && op.email !in m && Stale(m[e], op.at))
      && (op.Failure? && op.email !in m && |m| >= MAX_TRACKED_ACCOUNTS ==>
            forall e | e in m' && e != op.email :: m[e].lastActivity >= op.at - LOCKOUT_WINDOW)
      && |m'| <= if op.Success? || op.email in m then |m| else |m| + 1
  {
    var m' := Apply(m, op);
    if op.Success? {
      SubsetSize(m'.Keys, m.Keys);
    } else {
      SubsetSize(m'.Keys, m.Keys + {op.email});
      if op.email in m {
        assert m.Keys + {op.email} == m.Keys;
      }
    }
  }

  ghost predicate Bounded(m: Table, inserted: Option<int>) {
    || |m| <= 10_000
    || (inserted.Some? && forall e | e in m :: m[e].lastActivity >= inserted.value - 900_000_000_000)
  }

  lemma CallStaysBounded(m: Table, inserted: Option<int>, op: Op)
    requires Bounded(m, inserted) && (inserted.Some? && op.Failure? ==> inserted.value <= op.at)
    ensures Bounded(Apply(m, op), if op.Failure? && op.email !in m then Some(op.at) else inserted)
  {
    hide Apply;
    CallKeys(m, op);
  }

  /** The map is within its cap, or nothing in it had been idle for a lockout window when the
      newest email came in. */
  lemma {:induction false} MapIsBounded(log: seq<Op>, n: nat, now: int)
    requires n <= |log| && Timely(log, n, now)
    ensures Bounded(Replay(log, n), LastInsertion(log, n))
  {
    hide Replay, Apply, LastInsertion;
    ReplayStep(log, n);
    LastCall(log, n);
    if n > 0 {
      var op := log[n - 1];
      var instant := if op.Failure? then op.at else now;
      MapIsBounded(log, n - 1, instant);
      InsertedByNow(log, n - 1, instant);
      hide Bounded;
      CallStaysBounded(Replay(log, n - 1), LastInsertion(log, n - 1), op);
    }
  }

  /** Call i records a failure that no login of its email follows among the first n calls. */
  predicate Outstanding(log: seq<Op>, n: nat, i: nat)
    requires i < n <= |log|
  {
    log[i].Failure? && forall k | i < k < n :: log[k] != Success(log[i].email)
  }

  /** An email with an outstanding failure in the window before the newest insertion is there. */
  lemma {:induction false} RecentIsKept(log: seq<Op>, n: nat, i: nat, now: int)
    requires i < n <= |log| && Timely(log, n, now) && Outstanding(log, n, i)
    requires LastInsertion(log, n).Some? ==> log[i].at >= LastInsertion(log, n).value - LOCKOUT_WINDOW
    ensures var m := Replay(log, n); log[i].email in m && m[log[i].email].lastActivity >= log[i].at
  {
    hide Replay, Apply, LastInsertion;
    var op := log[n - 1];
    ReplayStep(log, n);
    LastCall(log, n);
    CallKeys(Replay(log, n - 1), op);
    if i < n - 1 {
      assert op != Success(log[i].email);
      var instant := if op.Failure? then op.at else now;
      InsertedByNow(log, n - 1, instant);
      RecentIsKept(log, n - 1, i, instant);
    }
  }

  /** Every entry was last active at an outstanding failure of its email. */
  lemma {:induction false} KeptIsOutstanding(log: seq<Op>, n: nat, email: string) returns (i: nat)
    requires n <= |log| && email in Replay(log, n)
    ensures i < n && Outstanding(log, n, i) && log[i] == Failure(email, Replay(log, n)[email].lastActivity)
  {
    hide Replay, Apply;
    ReplayStep(log, n);
    if n == 0 {
      assert false;
    } else {
      CallKeys(Replay(log, n - 1), log[n - 1]);
      if log[n - 1].email == email {
        return n - 1;
      }
      i := KeptIsOutstanding(log, n - 1, email);
    }
  }

  /** The emails with an outstanding failure in the window before the newest insertion. */
  function RecentEmails(log: seq<Op>, n: nat): set<string>
    requires n <= |log|
  {
    var inserted := LastInsertion(log, n);
    set i | 0 <= i < n && Outstanding(log, n, i)
      && (inserted.Some? ==> log[i].at >= inserted.value - 900_000_000_000) :: log[i].email
  }

  /** Main result: the map exceeds its cap exactly when more emails than that had a failure,
      not followed by a login, within a lockout window before the newest email came in. */
  lemma MapExceedsCapIff(log: seq<Op>, n: nat, now: int)
    requires n <= |log| && Timely(log, n, now)
    ensures |Replay(log, n)| > 10_000 <==> |RecentEmails(log, n)| > 10_000
  {
    hide Replay, LastInsertion;
    var m, recent, inserted := Replay(log, n), RecentEmails(log, n), LastInsertion(log, n);
    forall email | email in recent
      ensures email in m
    {
      var i :| 0 <= i < n && Outstanding(log, n, i)
        && (inserted.Some? ==> log[i].at >= inserted.value - LOCKOUT_WINDOW) && log[i].email == email;
      RecentIsKept(log, n, i, now);
    }
    SubsetSize(recent, m.Keys);
    if |m| > MAX_TRACKED_ACCOUNTS {
      MapIsBounded(log, n, now);
      forall email | email in m
        ensures email in recent
      {
        var i := KeptIsOutstanding(log, n, email);
      }
      SubsetSize(m.Keys, recent);
      assert |m.Keys| == |m|;
    }
  }

  // The same question over a whole history, asked of the calls alone.

  /** The emails with an outstanding failure among the first n calls that is not before since. */
  function FailedSince(log: seq<Op>, n: nat, since: int): set<string>
    requires n <= |log|
  {
    set i | 0 <= i < n && Outstanding(log, n, i) && log[i].at >= since :: log[i].email
  }

  /** Call n - 1 is a failure, and more emails than the cap have one outstanding that is at most
      a lockout window older. */
  predicate Crowded(log: seq<Op>, n: nat)
    requires 0 < n <= |log|
  {
    log[n - 1].Failure? && |FailedSince(log, n, log[n - 1].at - 900_000_000_000)| > 10_000
  }

  /** The call that first takes the map over its cap inserts an email. */
  lemma {:induction false} FirstExcess(log: seq<Op>, n: nat) returns (k: nat)
    requires n <= |log| && |Replay(log, n)| > MAX_TRACKED_ACCOUNTS
    ensures 0 < k <= n && |Replay(log, k)| > MAX_TRACKED_ACCOUNTS
    ensures log[k - 1].Failure? && LastInsertion(log, k) == Some(log[k - 1].at)
  {
    hide Replay, Apply, LastInsertion;
    ReplayStep(log, n);
    LastCall(log, n);
    k := n;
    var m := Replay(log, n - 1);
    if |m| > MAX_TRACKED_ACCOUNTS {
      k := FirstExcess(log, n - 1);
    } else {
      CallKeys(m, log[n - 1]);
    }
  }

  lemma FailedIsRecent(log: seq<Op>, n: nat, now: int)
    requires 0 < n <= |log| && Timely(log, n, now) && log[n - 1].Failure?
    ensures var failed := FailedSince(log, n, log[n - 1].at - LOCKOUT_WINDOW);
      && failed <= RecentEmails(log, n)
      && (LastInsertion(log, n) == Some(log[n - 1].at) ==> failed == RecentEmails(log, n))
  {
    hide LastInsertion, Outstanding;
    assert Timely(log, n, log[n - 1].at);
    InsertedByNow(log, n, log[n - 1].at);
  }

  /** Main result: along a history the map exceeds its cap at some point exactly when at some
      failure more emails than that have one outstanding within a lockout window. */
  lemma MapEverExceedsIff(log: seq<Op>, now: int)
    requires Timely(log, |log|, now)
    ensures (exists n | 0 <= n <= |log| :: |Replay(log, n)| > 10_000)
       <==> (exists n | 0 < n <= |log| :: Crowded(log, n))
  {
    hide Replay, LastInsertion, RecentEmails, FailedSince;
    if n :| 0 <= n <= |log| && |Replay(log, n)| > MAX_TRACKED_ACCOUNTS {
      var k := FirstExcess(log, n);
      MapExceedsCapIff(log, k, now);
      FailedIsRecent(log, k, now);
      assert Crowded(log, k);
    }
    if n :| 0 < n <= |log| && Crowded(log, n) {
      FailedIsRecent(log, n, now);
      SubsetSize(FailedSince(log, n, log[n - 1].at - LOCKOUT_WINDOW), RecentEmails(log, n));
      MapExceedsCapIff(log, n, now);
    }
  }

  // The cap itself is not a bound.

  /** Distinct emails, told apart by their length. */
  function NumberedEmail(i: nat): (email: string)
    ensures |email| == i + 1
  {
    seq(i + 1, _ => 'x')
  }

  function Sprayed(n: nat, now: int): seq<Op> {
    seq(n, i requires 0 <= i => Failure(NumberedEmail(i), now))
  }

  lemma {:induction false} SprayFills(n: nat, now: int, k: nat)
    requires k <= n
    ensures var m := Replay(Sprayed(n, now), k);
      |m| == k && forall e | e in m :: |e| <= k && m[e].lastActivity == now
  {
    hide Apply, Replay, NumberedEmail;
    var log := Sprayed(n, now);
    ReplayStep(log, k);
    if k > 0 {
      assert log[k - 1] == Failure(NumberedEmail(k - 1), now);
      hide Sprayed;
      SprayFills(n, now, k - 1);
      NewEmail(Replay(log, k - 1), NumberedEmail(k - 1), now);
    }
  }

  lemma NewEmail(m: Table, email: string, now: int)
    requires email !in m && forall e | e in m :: m[e].lastActivity == now
    ensures var m' := Apply(m, Failure(email, now));
      m'.Keys == m.Keys + {email} && |m'| == |m| + 1 && forall e | e in m' :: m'[e].lastActivity == now
  {
    var m' := Apply(m, Failure(email, now));
    assert Sweep(m, now) == m;
    assert m'.Keys == m.Keys + {email};
    assert |m'.Keys| == |m.Keys| + 1;
  }

  /** A spray of more emails than the cap at one instant is all kept. */
  lemma MapCanOutgrowItsCap(now: int)
    ensures var log := Sprayed(10_001, now); Timely(log, |log|, now) && |Replay(log, |log|)| > 10_000
  {
    hide Replay;
    SprayFills(MAX_TRACKED_ACCOUNTS + 1, now, MAX_TRACKED_ACCOUNTS + 1);
  }
}
