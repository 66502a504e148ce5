/** What the limiter promises, stated on the events of one email. */
module LoginLockout {
  import opened Common
  import opened LoginAttemptLimiter

  /** What happened to one email: a wrong password, a login, or its entry being swept. */
  datatype Mark = Failed(at: int) | Cleared | Swept(at: int)

  // The promise: the sixth failure of a run locks, for fifteen minutes.
  const CROSSING := 6
  const FIFTEEN_MINUTES := 900_000_000_000

  /** One email's events, read off the first n calls made for every email. */
  function HistoryOf(log: seq<Op>, email: string, n: nat): seq<Mark>
    requires n <= |log|
  {
    if n == 0 then [] else HistoryOf(log, email, n - 1) + MarksOf(Replay(log, n - 1), log[n - 1], email)
  }

  function MarksOf(m: Table, op: Op, email: string): seq<Mark> {
    match op
    case Success(e) => if e == email then [Cleared] else []
    case Failure(e, at) =>
      if e == email then [Failed(at)]
      else if email in m && Sweeps(m, e) && Stale(m[email], at) then [Swept(at)]
      else []
  }

  /** Where the run of failures that is current after the first n events starts: after the
      last login or sweep, or at the failure that found the lockout of the run before it expired. */
  function RunStart(h: seq<Mark>, n: nat): (s: nat)
    requires n <= |h|
    ensures s <= n
    ensures forall i | s <= i < n :: h[i].Failed?
  {
    if n == 0 then 0
    else
      match h[n - 1]
      case Failed(at) =>
        var s := RunStart(h, n - 1);
        if n - 1 - s >= CROSSING && at >= h[s + CROSSING - 1].at + FIFTEEN_MINUTES then n - 1 else s
      case _ => n
  }

  /** Event i is the sixth failure of its run. */
  predicate IsSixth(h: seq<Mark>, i: nat)
    requires i < |h|
  {
    h[i].Failed? && i == RunStart(h, i + 1) + CROSSING - 1
  }

  /** No login in h[lo..hi]. */
  predicate NoLogin(h: seq<Mark>, lo: nat, hi: nat)
    requires hi <= |h|
  {
    forall i | lo <= i < hi :: !h[i].Cleared?
  }

  /** Some sixth failure is less than a window old and no login followed it. */
  ghost predicate LockedBy(h: seq<Mark>, t: int) {
    exists i :: 0 <= i < |h| && IsSixth(h, i) && t < h[i].at + FIFTEEN_MINUTES && NoLogin(h, i + 1, |h|)
  }

  /** Events are in order, and a sweep comes more than a window after any failure before it. */
  predicate WellTimed(h: seq<Mark>, now: int) {
    && (forall i, j :: 0 <= i < j < |h| && !h[i].Cleared? && !h[j].Cleared? ==> h[i].at <= h[j].at)
    && (forall i | 0 <= i < |h| && !h[i].Cleared? :: h[i].at <= now)
    && (forall i, j :: 0 <= i < j < |h| && h[i].Failed? && h[j].Swept? ==> h[j].at > h[i].at + FIFTEEN_MINUTES)
  }

  /** What the table holds for an email, in terms of its current run. */
  ghost predicate Tracks(m: Table, h: seq<Mark>, email: string) {
    var n, s := |h|, RunStart(h, |h|);
    && (email in m <==> s < n)
    && (email in m ==> m[email] == AttemptState(
          n - s,
          if n - s >= CROSSING then Some(h[s + CROSSING - 1].at + FIFTEEN_MINUTES) else None,
          h[n - 1].at))
  }

  /** Later events do not move the runs of earlier ones. */
  lemma {:induction false} RunStartKeeps(h: seq<Mark>, h': seq<Mark>, n: nat)
    requires n <= |h| && h <= h'
    ensures RunStart(h', n) == RunStart(h, n)
  {
    if n > 0 {
      RunStartKeeps(h, h', n - 1);
    }
  }

  /** How one more event moves the start of the current run. */
  function NextStart(h: seq<Mark>, s: nat, mark: Mark): nat
    requires s <= |h| && forall i | s <= i < |h| :: h[i].Failed?
  {
    match mark
    case Failed(at) => if |h| - s >= CROSSING && at >= h[s + CROSSING - 1].at + FIFTEEN_MINUTES then |h| else s
    case _ => |h| + 1
  }

  lemma RunStartSnoc(h: seq<Mark>, mark: Mark)
    ensures RunStart(h + [mark], |h| + 1) == NextStart(h, RunStart(h, |h|), mark)
  {
    RunStartKeeps(h, h + [mark], |h|);
  }

  lemma FailureTracks(m: Table, h: seq<Mark>, email: string, at: int)
    requires Tracks(m, h, email)
    ensures Tracks(CountFailure(m, email, at).0, h + [Failed(at)], email)
  {
    hide RunStart;
    RunStartSnoc(h, Failed(at));
  }

  lemma RemovalTracks(m: Table, h: seq<Mark>, email: string, mark: Mark)
    requires email !in m && !mark.Failed?
    ensures Tracks(m, h + [mark], email)
  {
    hide RunStart;
    RunStartSnoc(h, mark);
  }

  lemma OthersTrack(m: Table, m': Table, h: seq<Mark>, email: string)
    requires Tracks(m, h, email) && (email in m <==> email in m') && (email in m ==> m[email] == m'[email])
    ensures Tracks(m', h, email)
  {
    hide RunStart;
  }

  lemma ApplyTracks(m: Table, h: seq<Mark>, op: Op, email: string)
    requires Tracks(m, h, email)
    ensures Tracks(Apply(m, op), h + MarksOf(m, op, email), email)
  {
    hide Tracks, Stale;
    var m', marks := Apply(m, op), MarksOf(m, op, email);
    if marks == [] {
      assert h + marks == h;
      OthersTrack(m, m', h, email);
    } else if marks[0].Failed? {
      FailureTracks(m, h, email, op.at);
    } else {
      assert email !in m';
      assert h + marks == h + [marks[0]];
      RemovalTracks(m', h, email, marks[0]);
    }
  }

  /** One call further along, for both the table and the email's events. */
  lemma OneCall(log: seq<Op>, email: string, n: nat)
    requires 0 < n <= |log|
    ensures Replay(log, n) == Apply(Replay(log, n - 1), log[n - 1])
    ensures HistoryOf(log, email, n) == HistoryOf(log, email, n - 1) + MarksOf(Replay(log, n - 1), log[n - 1], email)
  {
    hide Apply, MarksOf;
  }

  lemma NothingTracks(log: seq<Op>, email: string)
    ensures Tracks(Replay(log, 0), HistoryOf(log, email, 0), email)
  {}

  lemma {:induction false} LogTracks(log: seq<Op>, email: string, n: nat)
    requires n <= |log|
    ensures Tracks(Replay(log, n), HistoryOf(log, email, n), email)
  {
    hide Tracks, Apply, MarksOf, Replay, HistoryOf;
    if n == 0 {
      NothingTracks(log, email);
    } else {
      OneCall(log, email, n);
      LogTracks(log, email, n - 1);
      ApplyTracks(Replay(log, n - 1), HistoryOf(log, email, n - 1), log[n - 1], email);
    }
  }

  lemma MarksWellTimed(m: Table, h: seq<Mark>, op: Op, email: string, now: int)
    requires Tracks(m, h, email) && WellTimed(h, now) && (op.Failure? ==> now <= op.at)
    ensures WellTimed(h + MarksOf(m, op, email), if op.Failure? then op.at else now)
  {}

  lemma WellTimedLater(h: seq<Mark>, now: int, later: int)
    requires WellTimed(h, now) && now <= later
    ensures WellTimed(h, later)
  {}

  lemma NothingWellTimed(log: seq<Op>, email: string, now: int)
    ensures WellTimed(HistoryOf(log, email, 0), now)
  {}

  lemma {:induction false} HistoryWellTimed(log: seq<Op>, email: string, n: nat, now: int)
    requires n <= |log| && Timely(log, n, now)
    ensures WellTimed(HistoryOf(log, email, n), now)
  {
    hide *;
    if n == 0 {
      NothingWellTimed(log, email, now);
    } else {
      var op, h := log[n - 1], HistoryOf(log, email, n - 1);
      var instant := Instant(log, n, now);
      OneCall(log, email, n);
      TimelyBefore(log, n, now);
      HistoryWellTimed(log, email, n - 1, instant);
      LogTracks(log, email, n - 1);
      InstantOf(log, n, now);
      MarksWellTimed(Replay(log, n - 1), h, op, email, instant);
      WellTimedLater(HistoryOf(log, email, n), instant, now);
    }
  }

  lemma InstantOf(log: seq<Op>, n: nat, now: int)
    requires 0 < n <= |log|
    ensures Instant(log, n, now) == if log[n - 1].Failure? then log[n - 1].at else now
  {}

  /** Until a window has passed since a sixth failure, only a login ends its run. */
  lemma {:induction false} RunOutlivesWindow(h: seq<Mark>, a: nat, n: nat, now: int)
    requires WellTimed(h, now) && a < n <= |h| && IsSixth(h, a) && NoLogin(h, a + 1, n)
    requires h[n - 1].at < h[a].at + FIFTEEN_MINUTES
    ensures RunStart(h, n) == a - CROSSING + 1
  {
    if n > a + 1 {
      RunOutlivesWindow(h, a, n - 1, now);
      NotSweptYet(h, a, n - 1, now);
    }
  }

  /** A sweep needs a whole window of silence. */
  lemma NotSweptYet(h: seq<Mark>, a: nat, k: nat, now: int)
    requires WellTimed(h, now) && a < k < |h| && h[a].Failed? && NoLogin(h, a + 1, k + 1)
    requires h[k].at < h[a].at + FIFTEEN_MINUTES
    ensures h[k].Failed?
  {
  }

  /** Lockouts of one email are a window apart unless a login intervenes. */
  lemma SixthsApart(h: seq<Mark>, a: nat, b: nat, now: int)
    requires WellTimed(h, now) && a < b < |h| && IsSixth(h, a) && IsSixth(h, b) && NoLogin(h, a + 1, b)
    ensures h[b].at >= h[a].at + FIFTEEN_MINUTES
  {
    if h[b].at < h[a].at + FIFTEEN_MINUTES {
      RunOutlivesWindow(h, a, b + 1, now);
    }
  }

  /** A run that is still going started in the same place at every point inside it. */
  lemma {:induction false} RunStartInside(h: seq<Mark>, k: nat, n: nat)
    requires n <= |h| && RunStart(h, n) < k <= n
    ensures RunStart(h, k) == RunStart(h, n)
  {
    if k < n {
      RunStartInside(h, k, n - 1);
    }
  }

  /** The current run holds a lockout that is still in force. */
  predicate RunLocks(h: seq<Mark>, t: int) {
    var s := RunStart(h, |h|);
    |h| - s >= CROSSING && t < h[s + CROSSING - 1].at + FIFTEEN_MINUTES
  }

  lemma RunLocksLock(h: seq<Mark>, t: int)
    requires RunLocks(h, t)
    ensures LockedBy(h, t)
  {
    var a := RunStart(h, |h|) + CROSSING - 1;
    RunStartInside(h, a + 1, |h|);
    hide RunStart;
    assert IsSixth(h, a) && NoLogin(h, a + 1, |h|);
  }

  lemma LockIsOfRun(h: seq<Mark>, t: int)
    requires WellTimed(h, t) && LockedBy(h, t)
    ensures RunLocks(h, t)
  {
    hide RunStart;
    var a :| 0 <= a < |h| && IsSixth(h, a) && t < h[a].at + FIFTEEN_MINUTES && NoLogin(h, a + 1, |h|);
    RunOutlivesWindow(h, a, |h|, t);
  }

  lemma TracksLock(m: Table, h: seq<Mark>, email: string, t: int)
    requires Tracks(m, h, email)
    ensures LockedIn(m, email, t) <==> RunLocks(h, t)
  {
    hide RunStart;
  }

  /** Main result: an email is locked exactly when its own events say so. */
  lemma LockedMatchesHistory(log: seq<Op>, email: string, n: nat, t: int)
    requires n <= |log| && Timely(log, n, t)
    ensures LockedIn(Replay(log, n), email, t) <==> LockedBy(HistoryOf(log, email, n), t)
  {
    var h := HistoryOf(log, email, n);
    LogTracks(log, email, n);
    HistoryWellTimed(log, email, n, t);
    hide *;
    TracksLock(Replay(log, n), h, email, t);
    if RunLocks(h, t) {
      RunLocksLock(h, t);
    }
    if LockedBy(h, t) {
      LockIsOfRun(h, t);
    }
  }

  /** The sweep never ends a live lockout. */
  lemma SweepSparesLockouts(log: seq<Op>, email: string, n: nat, t: int)
    requires n <= |log| && Timely(log, n, t)
    ensures LockedIn(Sweep(Replay(log, n), t), email, t) <==> LockedIn(Replay(log, n), email, t)
  {
    LogTracks(log, email, n);
    HistoryWellTimed(log, email, n, t);
    var h := HistoryOf(log, email, n);
    hide RunStart, HistoryOf, Replay;
    var s := RunStart(h, |h|);
    assert |h| - s >= CROSSING ==> h[s + CROSSING - 1].at <= h[|h| - 1].at;
  }

  lemma {:induction false} HistoryGrows(log: seq<Op>, email: string, i: nat, j: nat)
    requires i <= j <= |log|
    ensures HistoryOf(log, email, i) <= HistoryOf(log, email, j)
  {
    hide *;
    if i < j {
      HistoryGrows(log, email, i, j - 1);
      OneCall(log, email, j);
    }
  }

  /** A failure crosses the threshold exactly when it is the sixth of its run. */
  lemma CrossingIsSixth(m: Table, h: seq<Mark>, email: string, at: int)
    requires Tracks(m, h, email)
    ensures CountFailure(m, email, at).1 <==> IsSixth(h + [Failed(at)], |h|)
  {
    hide RunStart;
    RunStartSnoc(h, Failed(at));
  }

  lemma SixthKeeps(h: seq<Mark>, h': seq<Mark>, a: nat)
    requires a < |h| && h <= h'
    ensures IsSixth(h, a) <==> IsSixth(h', a)
  {
    hide RunStart;
    RunStartKeeps(h, h', a + 1);
  }

  lemma FailureMarks(log: seq<Op>, i: nat)
    requires i < |log| && log[i].Failure?
    ensures HistoryOf(log, log[i].email, i + 1) == HistoryOf(log, log[i].email, i) + [Failed(log[i].at)]
  {
    hide HistoryOf, Replay;
    OneCall(log, log[i].email, i + 1);
  }

  lemma ReportedCrosses(log: seq<Op>, i: nat)
    requires i < |log| && log[i].Failure?
    ensures Reported(log, i) <==> CountFailure(Replay(log, i), log[i].email, log[i].at).1
  {
    hide Replay, CountFailure;
  }

  /** A reported failure is the sixth of its run, at this place in the email's history. */
  lemma ReportedIsSixth(log: seq<Op>, i: nat, n: nat)
    requires i < n <= |log| && log[i].Failure?
    ensures var h, a := HistoryOf(log, log[i].email, n), |HistoryOf(log, log[i].email, i)|;
      && a < |h| && h[a] == Failed(log[i].at)
      && (Reported(log, i) <==> IsSixth(h, a))
  {
    hide *;
    var email, at := log[i].email, log[i].at;
    var before := HistoryOf(log, email, i);
    FailureMarks(log, i);
    HistoryGrows(log, email, i + 1, n);
    LogTracks(log, email, i);
    ReportedCrosses(log, i);
    CrossingIsSixth(Replay(log, i), before, email, at);
    SixthKeeps(before + [Failed(at)], HistoryOf(log, email, n), |before|);
  }

  lemma AppendKeepsNoLogin(h: seq<Mark>, marks: seq<Mark>, lo: nat)
    requires NoLogin(h, lo, |h|) && Cleared !in marks
    ensures NoLogin(h + marks, lo, |h + marks|)
  {}

  lemma {:induction false} NoLoginBetween(log: seq<Op>, email: string, i: nat, j: nat)
    requires i <= j <= |log| && forall k | i <= k < j :: log[k] != Success(email)
    ensures NoLogin(HistoryOf(log, email, j), |HistoryOf(log, email, i)|, |HistoryOf(log, email, j)|)
  {
    hide Replay, HistoryOf, NoLogin;
    if i == j {
      EmptyNoLogin(HistoryOf(log, email, j));
    } else {
      OneCall(log, email, j);
      NoLoginBetween(log, email, i, j - 1);
      var marks := MarksOf(Replay(log, j - 1), log[j - 1], email);
      AppendKeepsNoLogin(HistoryOf(log, email, j - 1), marks, |HistoryOf(log, email, i)|);
    }
  }

  lemma EmptyNoLogin(h: seq<Mark>)
    ensures NoLogin(h, |h|, |h|)
  {}

  /** Main result: whatever calls are made, two reports for one email with no login between
      them are at least a window apart. */
  lemma OneReportPerLockout(log: seq<Op>, i: nat, j: nat)
    requires i < j < |log| && log[i].Failure? && log[j].Failure? && Timely(log, j + 1, log[j].at)
    requires log[i].email == log[j].email && Reported(log, i) && Reported(log, j)
    requires forall k | i < k < j :: log[k] != Success(log[i].email)
    ensures log[j].at >= log[i].at + FIFTEEN_MINUTES
  {
    hide *;
    var email := log[i].email;
    var h, before := HistoryOf(log, email, j + 1), HistoryOf(log, email, j);
    var a, b := |HistoryOf(log, email, i)|, |before|;
    ReportedIsSixth(log, i, j + 1);
    ReportedIsSixth(log, j, j + 1);
    FailureMarks(log, i);
    FailureMarks(log, j);
    HistoryGrows(log, email, i + 1, j);
    NoLoginBetween(log, email, i + 1, j);
    PrefixNoLogin(before, Failed(log[j].at), a + 1);
    HistoryWellTimed(log, email, j + 1, log[j].at);
    SixthsApart(h, a, b, log[j].at);
  }

  lemma PrefixNoLogin(h: seq<Mark>, mark: Mark, lo: nat)
    requires NoLogin(h, lo, |h|)
    ensures NoLogin(h + [mark], lo, |h|)
  {}

  // With few emails nothing is ever swept.

  function EmailsOf(log: seq<Op>): set<string> {
    set op | op in log :: op.email
  }

  lemma CallEmails(m: Table, op: Op, emails: set<string>)
    requires m.Keys <= emails && op.email in emails && |emails| <= 10_000
    ensures Apply(m, op).Keys <= emails
    ensures op.Failure? ==> !Sweeps(m, op.email)
  {
    if op.Failure? && op.email !in m {
      SubsetSize(m.Keys + {op.email}, emails);
      assert |m.Keys| == |m|;
    }
  }

  lemma NoMarkSwept(m: Table, op: Op, email: string)
    requires op.Failure? ==> !Sweeps(m, op.email)
    ensures NothingSwept(MarksOf(m, op, email))
  {}

  predicate NothingSwept(h: seq<Mark>) {
    forall i | 0 <= i < |h| :: !h[i].Swept?
  }

  lemma NothingSweptBoth(h: seq<Mark>, marks: seq<Mark>)
    requires NothingSwept(h) && NothingSwept(marks)
    ensures NothingSwept(h + marks)
  {}

  lemma NoMarkYet(log: seq<Op>, email: string)
    ensures Replay(log, 0).Keys == {} && NothingSwept(HistoryOf(log, email, 0))
  {}

  lemma LogEmail(log: seq<Op>, n: nat)
    requires 0 < n <= |log|
    ensures log[n - 1].email in EmailsOf(log)
  {
    assert log[n - 1] in log;
  }

  /** Main result: while no more than ten thousand emails are about, an entry goes only by a
      login: whatever the clock says, no failure is forgotten. */
  lemma {:induction false} FewEmailsNeverSwept(log: seq<Op>, email: string, n: nat)
    requires n <= |log| && |EmailsOf(log)| <= 10_000
    ensures Replay(log, n).Keys <= EmailsOf(log) && NothingSwept(HistoryOf(log, email, n))
  {
    hide *;
    if n == 0 {
      NoMarkYet(log, email);
    } else {
      var m, op := Replay(log, n - 1), log[n - 1];
      FewEmailsNeverSwept(log, email, n - 1);
      OneCall(log, email, n);
      LogEmail(log, n);
      CallEmails(m, op, EmailsOf(log));
      NoMarkSwept(m, op, email);
      NothingSweptBoth(HistoryOf(log, email, n - 1), MarksOf(m, op, email));
    }
  }
}
