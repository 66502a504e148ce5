/** Login attempts that overlap: each asks the limiter first and is recorded later. */
module LoginRaces {
  import opened Common
  import opened LoginAttemptLimiter
  import opened LoginGuesses
  import Schedules

  /** What became of an attempt that passed the check: the password is still being verified,
      it was recorded as the failure at this place of the log, it was right, or the
      authenticator gave no answer. */
  datatype Standing = Open | Wrong(place: nat) | Right | Unanswered

  /** asked is how many calls the limiter had recorded when the attempt asked it. */
  datatype Guess = Guess(email: string, asked: nat, at: int, standing: Standing)

  datatype State = State(log: seq<Op>, guesses: seq<Guess>, now: int)

  datatype Event = Wait(delay: nat) | Ask(email: string) | Settle(i: nat, verdict: Verdict)

  function Next(s: State, e: Event): State {
    match e
    case Wait(delay) => s.(now := s.now + delay)
    case Ask(email) =>
      if LockedIn(Replay(s.log, |s.log|), email, s.now) then s
      else s.(guesses := s.guesses + [Guess(email, |s.log|, s.now, Open)])
    case Settle(i, verdict) =>
      if i >= |s.guesses| || !s.guesses[i].standing.Open? then s
      else
        var g := s.guesses[i];
        match verdict
        case InvalidCredentials =>
          State(s.log + [Failure(g.email, s.now)], s.guesses[i := g.(standing := Wrong(|s.log|))], s.now)
        case Accepted => State(s.log + [Success(g.email)], s.guesses[i := g.(standing := Right)], s.now)
        case Unavailable => s.(guesses := s.guesses[i := g.(standing := Unanswered)])
  }

  function Run(s: State, es: seq<Event>): State {
    Schedules.Run(Next, s, es)
  }

  function Start(now: int): State {
    State([], [], now)
  }

  /** The attempts on email whose password is being verified. */
  function OpenFor(guesses: seq<Guess>, email: string): set<nat> {
    set i | 0 <= i < |guesses| && guesses[i].email == email && guesses[i].standing.Open?
  }

  /** At no point of the schedule more than k attempts on email are being verified. */
  ghost predicate Within(s: State, es: seq<Event>, email: string, k: nat) {
    forall n | 0 <= n <= |es| :: |OpenFor(Run(s, es[..n]).guesses, email)| <= k
  }

  /** A guess at email's password that counts: made since lo, and wrong or not settled yet. */
  predicate Counts(g: Guess, email: string, lo: nat) {
    g.email == email && g.asked >= lo && (g.standing.Open? || g.standing.Wrong?)
  }

  predicate Rising(picked: seq<nat>) {
    forall x, y | 0 <= x < y < |picked| :: picked[x] < picked[y]
  }

  function Picked(guesses: seq<Guess>, email: string, lo: nat, n: nat): (picked: seq<nat>)
    requires n <= |guesses|
    ensures forall x | 0 <= x < |picked| :: picked[x] < n && Counts(guesses[picked[x]], email, lo)
    ensures Rising(picked)
  {
    if n == 0 then []
    else Picked(guesses, email, lo, n - 1) + if Counts(guesses[n - 1], email, lo) then [n - 1] else []
  }

  /** When the guesses that count passed the check. */
  function Verified(guesses: seq<Guess>, email: string, lo: nat): (times: seq<int>)
    ensures |times| == |Picked(guesses, email, lo, |guesses|)|
  {
    var picked := Picked(guesses, email, lo, |guesses|);
    seq(|picked|, x requires 0 <= x < |picked| => guesses[picked[x]].at)
  }

  // One attempt with nothing in between is Login.

  lemma AttemptAlone(s: State, email: string, delay: nat, verdict: Verdict)
    ensures var s' := Run(s, [Ask(email), Wait(delay), Settle(|s.guesses|, verdict)]);
      var verified := !LockedIn(Replay(s.log, |s.log|), email, s.now);
      && |s'.guesses| == |s.guesses| + (if verified then 1 else 0)
      && s'.now == s.now + delay
      && s'.log == s.log + if !verified || verdict.Unavailable? then []
                           else if verdict.Accepted? then [Success(email)] else [Failure(email, s.now + delay)]
  {
    hide LockedIn, Replay;
    Schedules.RunThree(Next, s, Ask(email), Wait(delay), Settle(|s.guesses|, verdict));
  }

  // What every schedule keeps.

  /** The attempt asked when the log was this long, was not locked out then, and is settled by
      a failure of its own email recorded since. */
  ghost predicate GuessSound(log: seq<Op>, g: Guess, now: int) {
    && g.asked <= |log| && g.at <= now && Timely(log, g.asked, g.at)
    && !LockedIn(Replay(log, g.asked), g.email, g.at)
    && (forall r | g.asked <= r < |log| && log[r].Failure? :: log[r].at >= g.at)
    && (g.standing.Wrong? ==>
          g.asked <= g.standing.place < |log| && log[g.standing.place].Failure? && log[g.standing.place].email == g.email)
  }

  /** Attempts are in the order they asked, and no two are settled by the same failure. */
  predicate InOrder(guesses: seq<Guess>) {
    && (forall i, j | 0 <= i < j < |guesses| :: guesses[i].asked <= guesses[j].asked && guesses[i].at <= guesses[j].at)
    && (forall i, j | 0 <= i < j < |guesses| && guesses[i].standing.Wrong? && guesses[j].standing.Wrong? ::
          guesses[i].standing.place != guesses[j].standing.place)
  }

  ghost predicate Sound(s: State) {
    && Timely(s.log, |s.log|, s.now) && InOrder(s.guesses)
    && forall i | 0 <= i < |s.guesses| :: GuessSound(s.log, s.guesses[i], s.now)
  }

  lemma GuessLater(log: seq<Op>, more: seq<Op>, g: Guess, now: int, later: int)
    requires GuessSound(log, g, now) && now <= later && |more| <= 1 && (more != [] && more[0].Failure? ==> more[0].at >= now)
    ensures GuessSound(log + more, g, later)
  {
    ReplayKeeps(log, log + more, g.asked);
    hide Replay;
  }

  lemma GuessSettles(log: seq<Op>, g: Guess, now: int)
    requires GuessSound(log, g, now)
    ensures GuessSound(log + [Failure(g.email, now)], g.(standing := Wrong(|log|)), now)
    ensures GuessSound(log + [Success(g.email)], g.(standing := Right), now)
    ensures GuessSound(log, g.(standing := Unanswered), now)
  {
    GuessLater(log, [Failure(g.email, now)], g, now, now);
    GuessLater(log, [Success(g.email)], g, now, now);
    hide Replay, LockedIn;
  }

  lemma PlacesBelow(s: State, i: nat)
    requires Sound(s) && i < |s.guesses|
    ensures s.guesses[i].asked <= |s.log| && s.guesses[i].at <= s.now
    ensures s.guesses[i].standing.Wrong? ==> s.guesses[i].standing.place < |s.log|
  {
    hide Replay, LockedIn, InOrder;
  }

  lemma AskSound(s: State, email: string)
    requires Sound(s) && !LockedIn(Replay(s.log, |s.log|), email, s.now)
    ensures Sound(s.(guesses := s.guesses + [Guess(email, |s.log|, s.now, Open)]))
  {
    hide Replay, LockedIn;
    forall i | 0 <= i < |s.guesses|
      ensures s.guesses[i].asked <= |s.log| && s.guesses[i].at <= s.now
    {
      PlacesBelow(s, i);
    }
  }

  lemma SettleSound(s: State, i: nat, verdict: Verdict)
    requires Sound(s) && i < |s.guesses| && s.guesses[i].standing.Open?
    ensures Sound(Next(s, Settle(i, verdict)))
  {
    var s' := Next(s, Settle(i, verdict));
    var more := s'.log[|s.log|..];
    assert s'.log == s.log + more;
    hide Replay, LockedIn, GuessSound;
    GuessSettles(s.log, s.guesses[i], s.now);
    forall j | 0 <= j < |s'.guesses|
      ensures GuessSound(s'.log, s'.guesses[j], s'.now)
    {
      if j != i {
        GuessLater(s.log, more, s.guesses[j], s.now, s.now);
      }
    }
    SettledInOrder(s, i, s'.guesses);
  }

  lemma SettledInOrder(s: State, i: nat, guesses: seq<Guess>)
    requires Sound(s) && i < |s.guesses| == |guesses|
    requires guesses[i].asked == s.guesses[i].asked && guesses[i].at == s.guesses[i].at
    requires guesses[i].standing.Wrong? ==> guesses[i].standing.place >= |s.log|
    requires forall j | 0 <= j < |guesses| && j != i :: guesses[j] == s.guesses[j]
    ensures InOrder(guesses)
  {
    forall j | 0 <= j < |guesses| && guesses[j].standing.Wrong? && j != i
      ensures guesses[j].standing.place < |s.log|
    {
      PlacesBelow(s, j);
    }
    hide GuessSound, Timely;
  }

  lemma NextSound(s: State, e: Event)
    requires Sound(s)
    ensures Sound(Next(s, e))
  {
    hide Replay, LockedIn, GuessSound, InOrder;
    match e
    case Wait(delay) =>
      forall i | 0 <= i < |s.guesses|
        ensures GuessSound(s.log, s.guesses[i], s.now + delay)
      {
        GuessLater(s.log, [], s.guesses[i], s.now, s.now + delay);
        assert s.log + [] == s.log;
      }
    case Ask(email) =>
      if !LockedIn(Replay(s.log, |s.log|), email, s.now) {
        AskSound(s, email);
      }
    case Settle(i, verdict) =>
      if i < |s.guesses| && s.guesses[i].standing.Open? {
        SettleSound(s, i, verdict);
      }
  }

  /** The attempts on email, up to attempt j, that were being verified when j asked. */
  function InFlightAt(guesses: seq<Guess>, email: string, j: nat): set<nat>
    requires j < |guesses|
  {
    set i | 0 <= i <= j && guesses[i].email == email
      && (guesses[i].standing.Open? || (guesses[i].standing.Wrong? && guesses[i].standing.place >= guesses[j].asked))
  }

  ghost predicate Limited(guesses: seq<Guess>, email: string, k: nat) {
    forall j | 0 <= j < |guesses| :: |InFlightAt(guesses, email, j)| <= k
  }

  lemma InFlightIsOpen(guesses: seq<Guess>, email: string, n: nat)
    requires |guesses| == n + 1
    requires forall i | 0 <= i <= n && guesses[i].standing.Wrong? :: guesses[i].standing.place < guesses[n].asked
    ensures InFlightAt(guesses, email, n) == OpenFor(guesses, email)
  {}

  lemma InFlightBefore(guesses: seq<Guess>, g: Guess, email: string, j: nat)
    requires j < |guesses|
    ensures InFlightAt(guesses + [g], email, j) == InFlightAt(guesses, email, j)
  {
    assert (guesses + [g])[..|guesses|] == guesses;
  }

  lemma AllPlacesBelow(s: State, g: Guess)
    requires Sound(s) && g.standing.Open?
    ensures var guesses := s.guesses + [g];
      forall i | 0 <= i <= |s.guesses| && guesses[i].standing.Wrong? :: guesses[i].standing.place < |s.log|
  {
    forall i | 0 <= i < |s.guesses| && s.guesses[i].standing.Wrong?
      ensures s.guesses[i].standing.place < |s.log|
    {
      PlacesBelow(s, i);
    }
  }

  lemma AskLimited(s: State, g: Guess, email: string, k: nat)
    requires Sound(s) && Limited(s.guesses, email, k) && g.asked == |s.log| && g.standing.Open?
    requires |OpenFor(s.guesses + [g], email)| <= k
    ensures Limited(s.guesses + [g], email, k)
  {
    var guesses, n := s.guesses + [g], |s.guesses|;
    AllPlacesBelow(s, g);
    hide Sound, OpenFor, InFlightAt;
    InFlightIsOpen(guesses, email, n);
    forall j | 0 <= j < |guesses|
      ensures |InFlightAt(guesses, email, j)| <= k
    {
      if j < n {
        InFlightBefore(s.guesses, g, email, j);
      }
    }
  }

  lemma SettleLimited(s: State, i: nat, standing: Standing, email: string, k: nat)
    requires Sound(s) && Limited(s.guesses, email, k) && i < |s.guesses| && s.guesses[i].standing.Open?
    ensures Limited(s.guesses[i := s.guesses[i].(standing := standing)], email, k)
  {
    var guesses := s.guesses[i := s.guesses[i].(standing := standing)];
    forall j | 0 <= j < |guesses|
      ensures |InFlightAt(guesses, email, j)| <= k
    {
      assert InFlightAt(guesses, email, j) <= InFlightAt(s.guesses, email, j);
      SubsetSize(InFlightAt(guesses, email, j), InFlightAt(s.guesses, email, j));
    }
  }

  lemma NextLimited(s: State, e: Event, email: string, k: nat)
    requires Sound(s) && Limited(s.guesses, email, k) && |OpenFor(Next(s, e).guesses, email)| <= k
    ensures Limited(Next(s, e).guesses, email, k)
  {
    hide Limited, Sound, Replay, LockedIn, OpenFor;
    match e
    case Wait(delay) =>
    case Ask(other) =>
      if !LockedIn(Replay(s.log, |s.log|), other, s.now) {
        AskLimited(s, Guess(other, |s.log|, s.now, Open), email, k);
      }
    case Settle(i, verdict) =>
      if i < |s.guesses| && s.guesses[i].standing.Open? {
        SettleLimited(s, i, Wrong(|s.log|), email, k);
        SettleLimited(s, i, Right, email, k);
        SettleLimited(s, i, Unanswered, email, k);
      }
  }

  lemma RunStep(s: State, es: seq<Event>)
    requires es != []
    ensures Run(s, es) == Next(Run(s, es[..|es| - 1]), es[|es| - 1])
  {
    hide Next;
  }

  lemma RunNothing(s: State)
    ensures Run(s, []) == s
  {}

  lemma StartSound(now: int, email: string, k: nat)
    ensures Sound(Start(now)) && Limited(Start(now).guesses, email, k)
  {}

  lemma WithinBefore(s: State, es: seq<Event>, email: string, k: nat)
    requires Within(s, es, email, k)
    ensures |OpenFor(Run(s, es).guesses, email)| <= k
    ensures es != [] ==> Within(s, es[..|es| - 1], email, k)
  {
    hide Run, OpenFor;
    assert es[..|es|] == es;
    if es != [] {
      var init := es[..|es| - 1];
      assert forall n | 0 <= n <= |init| :: init[..n] == es[..n];
    }
  }

  lemma {:induction false} RunSound(now: int, es: seq<Event>, email: string, k: nat)
    requires Within(Start(now), es, email, k)
    ensures var s := Run(Start(now), es); Sound(s) && Limited(s.guesses, email, k)
  {
    hide *;
    if es == [] {
      RunNothing(Start(now));
      StartSound(now, email, k);
    } else {
      var before := es[..|es| - 1];
      WithinBefore(Start(now), es, email, k);
      RunSound(now, before, email, k);
      RunStep(Start(now), es);
      NextSound(Run(Start(now), before), es[|es| - 1]);
      NextLimited(Run(Start(now), before), es[|es| - 1], email, k);
    }
  }

  // Six failures recorded since an attempt that was not locked out lock the email.

  predicate CountsBelow(m: Table) {
    forall e | e in m :: m[e].lockedUntil.None? ==> m[e].failures <= THRESHOLD
  }

  lemma {:induction false} ReplayCounts(log: seq<Op>, n: nat)
    requires n <= |log|
    ensures CountsBelow(Replay(log, n))
  {
    if n > 0 {
      ReplayCounts(log, n - 1);
      hide Replay;
      ReplayStep(log, n);
    }
  }

  /** At least n failures of email since a, when it was not locked out; or a window has passed. */
  predicate Armed(m: Table, email: string, n: nat, a: int, now: int) {
    || now >= a + LOCKOUT_WINDOW
    || (email !in m && n == 0)
    || (email in m && m[email].lockedUntil.None? && m[email].failures >= n && (n > 0 ==> m[email].lastActivity >= a))
    || (email in m && m[email].lockedUntil.Some? && m[email].lockedUntil.value <= a && n == 0)
    || (email in m && m[email].lockedUntil.Some? && m[email].lockedUntil.value >= a + LOCKOUT_WINDOW
        && m[email].lastActivity >= a)
  }

  lemma FailureArms(m: Table, email: string, n: nat, a: int, now: int, at: int)
    requires Armed(m, email, n, a, now) && a <= now <= at
    ensures Armed(CountFailure(m, email, at).0, email, n + 1, a, at)
  {
    hide Sweep;
  }

  lemma OtherArms(m: Table, op: Op, email: string, n: nat, a: int, now: int, later: int)
    requires Armed(m, email, n, a, now) && op.email != email && a <= now <= later && (op.Failure? ==> op.at == later)
    ensures Armed(Apply(m, op), email, n, a, later)
  {}

  lemma FewerArm(m: Table, email: string, n: nat, fewer: nat, a: int, now: int, later: int)
    requires Armed(m, email, n, a, now) && fewer <= n && now <= later
    ensures Armed(m, email, fewer, a, later)
  {}

  /** Of these attempts, those recorded before place q. */
  function Before(guesses: seq<Guess>, chosen: set<nat>, q: nat): set<nat> {
    set i | i in chosen && i < |guesses| && guesses[i].standing.Wrong? && guesses[i].standing.place < q
  }

  /** At most one attempt is recorded at a place, and only at a failure of its email. */
  lemma BeforeStep(s: State, email: string, chosen: set<nat>, q: nat)
    requires Sound(s) && q < |s.log| && forall i | i in chosen :: i < |s.guesses| && s.guesses[i].email == email
    ensures |Before(s.guesses, chosen, q + 1)| <= |Before(s.guesses, chosen, q)|
              + if s.log[q].Failure? && s.log[q].email == email then 1 else 0
  {
    var older, newer := Before(s.guesses, chosen, q), Before(s.guesses, chosen, q + 1);
    if i :| i in newer && i !in older {
      PlacesBelow(s, i);
      OnlyOneAt(s, chosen, q, i);
      hide Sound, Before;
      SubsetSize(newer, older + {i});
    } else {
      hide Sound, Before;
      SubsetSize(newer, older);
    }
  }

  lemma OnlyOneAt(s: State, chosen: set<nat>, q: nat, i: nat)
    requires Sound(s) && i in Before(s.guesses, chosen, q + 1) && i !in Before(s.guesses, chosen, q)
    ensures Before(s.guesses, chosen, q + 1) <= Before(s.guesses, chosen, q) + {i}
    ensures q < |s.log| && s.log[q].Failure? && s.log[q].email == s.guesses[i].email
  {
    assert GuessSound(s.log, s.guesses[i], s.now);
    hide GuessSound, Timely;
  }

  /** A stretch of the log without a login, whose failures are not before a. */
  ghost predicate Stretch(log: seq<Op>, email: string, p: nat, q: nat, a: int, now: int)
    requires p <= q <= |log|
  {
    && a <= now && Timely(log, q, now) && NoLogin(log, email, p, q)
    && forall r | p <= r < q && log[r].Failure? :: log[r].at >= a
  }

  /** When the last call of the stretch came. */
  lemma StretchBefore(log: seq<Op>, email: string, p: nat, q: nat, a: int, now: int) returns (before: int)
    requires p < q <= |log| && Stretch(log, email, p, q, a, now)
    ensures a <= before <= now && Stretch(log, email, p, q - 1, a, before)
    ensures log[q - 1].Failure? ==> log[q - 1].at == before
    ensures log[q - 1] != Success(email)
  {
    TimelyBefore(log, q, now);
    before := Instant(log, q, now);
  }

  lemma {:induction false} ArmedUntil(s: State, email: string, chosen: set<nat>, p: nat, q: nat, a: int, now: int)
    requires Sound(s) && p <= q <= |s.log| && Stretch(s.log, email, p, q, a, now)
    requires forall i | i in chosen :: i < |s.guesses| && s.guesses[i].email == email && s.guesses[i].asked >= p
    requires !LockedIn(Replay(s.log, p), email, a)
    ensures Armed(Replay(s.log, q), email, |Before(s.guesses, chosen, q)|, a, now)
    decreases q
  {
    hide *;
    if q == p {
      NoneBefore(s, chosen, p);
      NotLockedArms(s.log, p, q, email, a, now);
    } else {
      var n := |Before(s.guesses, chosen, q - 1)|;
      var before := StretchBefore(s.log, email, p, q, a, now);
      BeforeStep(s, email, chosen, q - 1);
      ArmedUntil(s, email, chosen, p, q - 1, a, before);
      ReplayStep(s.log, q);
      ArmedCall(s.log, q, email, n, |Before(s.guesses, chosen, q)|, a, before, now);
    }
  }

  lemma NoneBefore(s: State, chosen: set<nat>, p: nat)
    requires Sound(s) && forall i | i in chosen :: i < |s.guesses| && s.guesses[i].asked >= p
    ensures Before(s.guesses, chosen, p) == {}
  {
    forall i | i in chosen && s.guesses[i].standing.Wrong?
      ensures s.guesses[i].standing.place >= p
    {
      assert GuessSound(s.log, s.guesses[i], s.now);
    }
    hide GuessSound, Timely;
  }

  lemma NotLockedArms(log: seq<Op>, p: nat, q: nat, email: string, a: int, now: int)
    requires p <= q <= |log| && !LockedIn(Replay(log, p), email, a) && Stretch(log, email, p, q, a, now)
    ensures Armed(Replay(log, p), email, 0, a, now)
  {
    hide Replay;
  }

  lemma ArmedCall(log: seq<Op>, q: nat, email: string, n: nat, n': nat, a: int, now: int, later: int)
    requires 0 < q <= |log| && Armed(Replay(log, q - 1), email, n, a, now) && a <= now <= later
    requires Replay(log, q) == Apply(Replay(log, q - 1), log[q - 1]) && log[q - 1] != Success(email)
    requires log[q - 1].Failure? ==> log[q - 1].at == now
    requires n' <= n + if log[q - 1].Failure? && log[q - 1].email == email then 1 else 0
    ensures Armed(Replay(log, q), email, n', a, later)
  {
    var m, op := Replay(log, q - 1), log[q - 1];
    hide Replay, Armed, CountFailure;
    if op.email == email {
      FailureArms(m, email, n, a, now, now);
      FewerArm(Apply(m, op), email, n + 1, n', a, now, later);
    } else {
      OtherArms(m, op, email, n, a, now, now);
      FewerArm(Apply(m, op), email, n, n', a, now, later);
    }
  }

  lemma ArmedLocks(m: Table, email: string, n: nat, a: int, now: int)
    requires Armed(m, email, n, a, now) && CountsBelow(m) && n > THRESHOLD && !LockedIn(m, email, now)
    ensures now >= a + LOCKOUT_WINDOW
  {}

  // So attempts spread out.

  function Chosen(picked: seq<nat>, x: nat, n: nat): set<nat>
    requires x + n <= |picked|
  {
    set y | x <= y < x + n :: picked[y]
  }

  lemma {:induction false} ChosenSize(picked: seq<nat>, x: nat, n: nat)
    requires x + n <= |picked| && Rising(picked)
    ensures |Chosen(picked, x, n)| == n
  {
    if n > 0 {
      ChosenSize(picked, x, n - 1);
      ChosenNext(picked, x, n);
      hide Chosen, Rising;
    }
  }

  lemma ChosenNext(picked: seq<nat>, x: nat, n: nat)
    requires 0 < n && x + n <= |picked| && Rising(picked)
    ensures var last := picked[x + n - 1];
      Chosen(picked, x, n) == Chosen(picked, x, n - 1) + {last} && last !in Chosen(picked, x, n - 1)
  {}

  lemma SplitSize(chosen: set<nat>, before: set<nat>, open: set<nat>, k: nat)
    requires chosen <= before + open && |open| <= k
    ensures |before| >= |chosen| - k
  {
    SubsetSize(chosen, before + open);
    assert |before + open| <= |before| + |open| by {
      SubsetSize(open - before, open);
      assert before + open == before + (open - before);
    }
  }

  lemma RecordedOrOpen(guesses: seq<Guess>, email: string, picked: seq<nat>, x: nat, n: nat)
    requires 0 < n && x + n <= |picked| && Rising(picked)
    requires forall y | 0 <= y < |picked| :: picked[y] < |guesses| && Counts(guesses[picked[y]], email, 0)
    ensures var last := picked[x + n - 1];
      Chosen(picked, x, n) <= Before(guesses, Chosen(picked, x, n), guesses[last].asked) + InFlightAt(guesses, email, last)
  {
    var last := picked[x + n - 1];
    forall y | x <= y < x + n
      ensures picked[y] <= last && Counts(guesses[picked[y]], email, 0)
    {}
    hide Rising;
  }

  /** Of k + 6 attempts in a row, all but k had been recorded when the last one asked. */
  lemma SixRecorded(s: State, email: string, lo: nat, k: nat, x: nat)
    requires Limited(s.guesses, email, k) && x + k + THRESHOLD < |Picked(s.guesses, email, lo, |s.guesses|)|
    ensures var picked := Picked(s.guesses, email, lo, |s.guesses|);
      |Before(s.guesses, Chosen(picked, x, k + ROOM), s.guesses[picked[x + k + THRESHOLD]].asked)| > THRESHOLD
  {
    var picked := Picked(s.guesses, email, lo, |s.guesses|);
    var last, chosen := picked[x + k + THRESHOLD], Chosen(picked, x, k + ROOM);
    assert |InFlightAt(s.guesses, email, last)| <= k;
    hide Picked, Limited, Rising, Chosen, Before, InFlightAt;
    ChosenSize(picked, x, k + ROOM);
    RecordedOrOpen(s.guesses, email, picked, x, k + ROOM);
    SplitSize(chosen, Before(s.guesses, chosen, s.guesses[last].asked), InFlightAt(s.guesses, email, last), k);
  }

  lemma GuessFacts(s: State, i: nat, j: nat)
    requires Sound(s) && i <= j < |s.guesses|
    ensures var g, h := s.guesses[i], s.guesses[j];
      && g.asked <= h.asked <= |s.log| && g.at <= h.at
      && !LockedIn(Replay(s.log, g.asked), g.email, g.at) && !LockedIn(Replay(s.log, h.asked), h.email, h.at)
      && (forall lo: nat, email: string | lo <= g.asked && NoLogin(s.log, email, lo, |s.log|) ::
            Stretch(s.log, email, g.asked, h.asked, g.at, h.at))
  {
    assert GuessSound(s.log, s.guesses[i], s.now) && GuessSound(s.log, s.guesses[j], s.now);
    hide Replay, LockedIn;
  }

  lemma ChosenSince(s: State, email: string, lo: nat, x: nat, n: nat)
    requires Sound(s) && 0 < n && x + n <= |Picked(s.guesses, email, lo, |s.guesses|)|
    ensures var picked := Picked(s.guesses, email, lo, |s.guesses|);
      && picked[x] <= picked[x + n - 1] < |s.guesses|
      && s.guesses[picked[x]].email == s.guesses[picked[x + n - 1]].email == email && lo <= s.guesses[picked[x]].asked
      && forall i | i in Chosen(picked, x, n) ::
        i < |s.guesses| && s.guesses[i].email == email && s.guesses[i].asked >= s.guesses[picked[x]].asked
  {
    var picked := Picked(s.guesses, email, lo, |s.guesses|);
    assert Counts(s.guesses[picked[x]], email, lo) && Counts(s.guesses[picked[x + n - 1]], email, lo);
    hide Picked, GuessSound, Timely;
    forall i | i in Chosen(picked, x, n)
      ensures i < |s.guesses| && s.guesses[i].email == email && s.guesses[i].asked >= s.guesses[picked[x]].asked
    {
      var y :| x <= y < x + n && picked[y] == i;
      assert Counts(s.guesses[i], email, lo);
    }
  }

  lemma Spaced(s: State, email: string, lo: nat, k: nat, x: nat)
    requires Sound(s) && Limited(s.guesses, email, k) && lo <= |s.log| && NoLogin(s.log, email, lo, |s.log|)
    requires x + k + THRESHOLD < |Picked(s.guesses, email, lo, |s.guesses|)|
    ensures var picked := Picked(s.guesses, email, lo, |s.guesses|);
      s.guesses[picked[x + k + THRESHOLD]].at >= s.guesses[picked[x]].at + LOCKOUT_WINDOW
  {
    var picked := Picked(s.guesses, email, lo, |s.guesses|);
    var first, last, chosen := picked[x], picked[x + k + THRESHOLD], Chosen(picked, x, k + ROOM);
    ChosenSince(s, email, lo, x, k + ROOM);
    var g, h := s.guesses[first], s.guesses[last];
    hide Sound, Limited, Picked, Chosen, Replay, LockedIn, NoLogin, Stretch, Before, Armed, CountsBelow, Counts, Rising;
    GuessFacts(s, first, last);
    SixRecorded(s, email, lo, k, x);
    ArmedUntil(s, email, chosen, g.asked, h.asked, g.at, h.at);
    ReplayCounts(s.log, h.asked);
    ArmedLocks(Replay(s.log, h.asked), email, |Before(s.guesses, chosen, h.asked)|, g.at, h.at);
  }

  lemma VerifiedAt(guesses: seq<Guess>, email: string, lo: nat, x: nat)
    requires x < |Picked(guesses, email, lo, |guesses|)|
    ensures Verified(guesses, email, lo)[x] == guesses[Picked(guesses, email, lo, |guesses|)[x]].at
  {
    hide Picked;
  }

  lemma VerifiedSorted(s: State, email: string, lo: nat, x: nat, y: nat)
    requires Sound(s) && x < y < |Picked(s.guesses, email, lo, |s.guesses|)|
    ensures Verified(s.guesses, email, lo)[x] <= Verified(s.guesses, email, lo)[y]
  {
    var picked := Picked(s.guesses, email, lo, |s.guesses|);
    assert picked[x] < picked[y];
    hide *;
    VerifiedAt(s.guesses, email, lo, x);
    VerifiedAt(s.guesses, email, lo, y);
    GuessFacts(s, picked[x], picked[y]);
  }

  lemma VerifiedSpaced(s: State, email: string, lo: nat, k: nat, x: nat)
    requires Sound(s) && Limited(s.guesses, email, k) && lo <= |s.log| && NoLogin(s.log, email, lo, |s.log|)
    requires x + k + THRESHOLD < |Picked(s.guesses, email, lo, |s.guesses|)|
    ensures Verified(s.guesses, email, lo)[x + k + THRESHOLD] >= Verified(s.guesses, email, lo)[x] + LOCKOUT_WINDOW
  {
    hide Sound, Limited, Picked, Verified, NoLogin;
    Spaced(s, email, lo, k, x);
    VerifiedAt(s.guesses, email, lo, x);
    VerifiedAt(s.guesses, email, lo, x + k + THRESHOLD);
  }

  lemma GuessesSpread(s: State, email: string, lo: nat, k: nat)
    requires Sound(s) && Limited(s.guesses, email, k) && lo <= |s.log| && NoLogin(s.log, email, lo, |s.log|)
    ensures Spread(Verified(s.guesses, email, lo), k + THRESHOLD)
  {
    var times, room := Verified(s.guesses, email, lo), k + THRESHOLD;
    hide Sound, Limited, Picked, Verified, NoLogin;
    forall x, y | 0 <= x < y < |times|
      ensures times[x] <= times[y]
    {
      VerifiedSorted(s, email, lo, x, y);
    }
    forall x | 0 <= x < |times| - room
      ensures times[x + room] >= times[x] + LOCKOUT_WINDOW
    {
      VerifiedSpaced(s, email, lo, k, x);
      assert x + room == x + k + THRESHOLD;
    }
  }

  /** Main result: while at most k attempts on an email are being verified at a time, at most
      (k + 5) * (length / 15 minutes + 1) guesses at its password go through in any window of
      that length since its last login, whatever the schedule does to other emails. */
  lemma RacedGuessBound(now: int, es: seq<Event>, email: string, k: nat, lo: nat, start: int, length: nat)
    requires Within(Start(now), es, email, k)
    requires var log := Run(Start(now), es).log; lo <= |log| && NoLogin(log, email, lo, |log|)
    ensures CountIn(Verified(Run(Start(now), es).guesses, email, lo), start, length)
      <= (k + 5) * (length / 900_000_000_000 + 1)
  {
    assert k + THRESHOLD > 0;
    hide *;
    RunSound(now, es, email, k);
    GuessesSpread(Run(Start(now), es), email, lo, k);
    SpreadBound(Verified(Run(Start(now), es).guesses, email, lo), k + THRESHOLD, start, length);
  }

  // The bound is met, for any length and any number of attempts at a time.

  lemma WithinNothing(s: State, email: string, k: nat)
    requires |OpenFor(s.guesses, email)| <= k
    ensures Within(s, [], email, k)
  {
    hide OpenFor, Next;
    var none: seq<Event> := [];
    assert forall n | 0 <= n <= |none| :: none[..n] == none;
    RunNothing(s);
  }

  lemma WithinOne(s: State, e: Event, email: string, k: nat)
    requires |OpenFor(s.guesses, email)| <= k && |OpenFor(Next(s, e).guesses, email)| <= k
    ensures Within(s, [e], email, k) && Run(s, [e]) == Next(s, e)
  {
    hide OpenFor, Next;
    Schedules.RunOne(Next, s, e);
    assert [e][..0] == [] && [e][..1] == [e];
  }

  lemma WithinThen(s: State, es: seq<Event>, more: seq<Event>, email: string, k: nat)
    requires Within(s, es, email, k) && Within(Run(s, es), more, email, k)
    ensures Within(s, es + more, email, k) && Run(s, es + more) == Run(Run(s, es), more)
  {
    hide OpenFor, Next;
    Schedules.RunConcat(Next, s, es, more);
    forall n | 0 <= n <= |es + more|
      ensures |OpenFor(Run(s, (es + more)[..n]).guesses, email)| <= k
    {
      if n <= |es| {
        assert (es + more)[..n] == es[..n];
      } else {
        assert (es + more)[..n] == es + more[..n - |es|];
        Schedules.RunConcat(Next, s, es, more[..n - |es|]);
      }
    }
  }

  /** The email's entry after c failures in a row at time t, the first on a clean slate. */
  predicate Struck(m: Table, email: string, c: nat, t: int) {
    if c == 0 then email !in m || Expired(m[email], t)
    else email in m && m[email] == AttemptState(c, if c >= ROOM then Some(t + LOCKOUT_WINDOW) else None, t)
  }

  lemma StrikeOnce(m: Table, email: string, c: nat, t: int)
    requires Struck(m, email, c, t)
    ensures Struck(CountFailure(m, email, t).0, email, c + 1, t)
    ensures c < ROOM ==> !LockedIn(m, email, t)
  {
    hide Sweep;
  }

  lemma CleanAgain(m: Table, email: string, c: nat, t: int)
    requires Struck(m, email, c, t) && c >= ROOM
    ensures Struck(m, email, 0, t + LOCKOUT_WINDOW)
  {}

  /** Only email was attacked, every guess was wrong, all of it between these times. */
  predicate Spent(s: State, email: string, from: int, until: int) {
    && (forall i | 0 <= i < |s.guesses| ::
          s.guesses[i].email == email && s.guesses[i].standing.Wrong? && from <= s.guesses[i].at <= until)
    && (forall i | 0 <= i < |s.log| :: s.log[i].Failure?)
  }

  /** A volley's outcome: j more guesses, all wrong; the older ones as they were. */
  predicate Volleyed(s: State, s': State, email: string, j: nat) {
    && s'.now == s.now && |s'.guesses| == |s.guesses| + j && s.guesses <= s'.guesses
    && (forall i | |s.guesses| <= i < |s'.guesses| ::
          s'.guesses[i].email == email && s'.guesses[i].standing.Wrong? && s'.guesses[i].at == s.now)
    && s.log <= s'.log && (forall i | |s.log| <= i < |s'.log| :: s'.log[i].Failure?)
  }

  lemma VolleyedOpen(s: State, s': State, email: string, j: nat)
    requires Volleyed(s, s', email, j)
    ensures OpenFor(s'.guesses, email) == OpenFor(s.guesses, email)
  {}

  lemma VolleyedThen(s: State, s': State, s'': State, email: string, i: nat, j: nat)
    requires Volleyed(s, s', email, i) && Volleyed(s', s'', email, j)
    ensures Volleyed(s, s'', email, i + j)
  {
    assert forall x | 0 <= x < |s'.guesses| :: s''.guesses[x] == s'.guesses[x];
    assert forall x | 0 <= x < |s'.log| :: s''.log[x] == s'.log[x];
  }

  lemma NoVolley(s: State, email: string)
    ensures Volleyed(s, s, email, 0)
  {}

  lemma OneMoreOpen(guesses: seq<Guess>, g: Guess)
    requires g.standing.Open?
    ensures |OpenFor(guesses + [g], g.email)| == |OpenFor(guesses, g.email)| + 1
  {
    var older, newer, n := OpenFor(guesses, g.email), OpenFor(guesses + [g], g.email), |guesses|;
    forall i
      ensures i in newer <==> i in older || i == n
    {
      assert 0 <= i < n ==> (guesses + [g])[i] == guesses[i];
    }
    assert n !in older;
    hide OpenFor;
    assert newer == older + {n};
  }

  lemma AskOpens(s: State, email: string)
    requires !LockedIn(Replay(s.log, |s.log|), email, s.now)
    ensures var s' := Next(s, Ask(email));
      && s' == s.(guesses := s.guesses + [Guess(email, |s.log|, s.now, Open)])
      && |OpenFor(s'.guesses, email)| == |OpenFor(s.guesses, email)| + 1
  {
    OneMoreOpen(s.guesses, Guess(email, |s.log|, s.now, Open));
    hide Replay, LockedIn, OpenFor;
  }

  /** Settling the attempt that opened a volley closes it. */
  lemma SettleCloses(s: State, inner: State, email: string, c: nat, j: nat)
    requires Volleyed(Next(s, Ask(email)), inner, email, j) && !LockedIn(Replay(s.log, |s.log|), email, s.now)
    requires Struck(Replay(inner.log, |inner.log|), email, c, s.now)
    ensures var s' := Next(inner, Settle(|s.guesses|, InvalidCredentials));
      Volleyed(s, s', email, j + 1) && Struck(Replay(s'.log, |s'.log|), email, c + 1, s.now)
  {
    hide *;
    InnerVolley(s, inner, email, j);
    ReplaySnoc(inner.log, Failure(email, s.now));
    StrikeOnce(Replay(inner.log, |inner.log|), email, c, s.now);
    FailureCounts(Replay(inner.log, |inner.log|), Failure(email, s.now));
  }

  lemma InnerVolley(s: State, inner: State, email: string, j: nat)
    requires Volleyed(Next(s, Ask(email)), inner, email, j) && !LockedIn(Replay(s.log, |s.log|), email, s.now)
    ensures |inner.guesses| > |s.guesses| && inner.guesses[|s.guesses|] == Guess(email, |s.log|, s.now, Open)
    ensures var s' := Next(inner, Settle(|s.guesses|, InvalidCredentials));
      s'.log == inner.log + [Failure(email, s.now)] && Volleyed(s, s', email, j + 1)
  {
    var asked := Next(s, Ask(email));
    hide Replay, LockedIn;
    assert inner.guesses[|s.guesses|] == asked.guesses[|s.guesses|];
    assert forall i | 0 <= i < |s.guesses| :: inner.guesses[i] == asked.guesses[i] == s.guesses[i];
  }

  /** These events, with at most k attempts open, bring j wrong guesses and the email's entry to c. */
  ghost predicate Strikes(s: State, es: seq<Event>, email: string, k: nat, j: nat, c: nat) {
    && Within(s, es, email, k) && Volleyed(s, Run(s, es), email, j)
    && Struck(Replay(Run(s, es).log, |Run(s, es).log|), email, c, s.now)
  }

  lemma StrikesAre(s: State, es: seq<Event>, email: string, k: nat, j: nat, c: nat)
    requires Strikes(s, es, email, k, j, c)
    ensures var s' := Run(s, es);
      && Within(s, es, email, k) && s'.now == s.now && OpenFor(s'.guesses, email) == OpenFor(s.guesses, email)
      && Struck(Replay(s'.log, |s'.log|), email, c, s'.now) && Volleyed(s, s', email, j)
  {
    VolleyedOpen(s, Run(s, es), email, j);
    hide Replay, Run, Struck, Within, OpenFor;
  }

  lemma StrikesThen(s: State, es: seq<Event>, more: seq<Event>, email: string, k: nat, i: nat, c: nat, j: nat, c': nat)
    requires Strikes(s, es, email, k, i, c) && Strikes(Run(s, es), more, email, k, j, c')
    ensures Strikes(s, es + more, email, k, i + j, c')
  {
    hide Replay, Run, Struck, Within, OpenFor, Volleyed;
    StrikesAre(s, es, email, k, i, c);
    WithinThen(s, es, more, email, k);
    VolleyedThen(s, Run(s, es), Run(Run(s, es), more), email, i, j);
  }

  lemma NoStrike(s: State, email: string, c: nat, k: nat)
    requires Struck(Replay(s.log, |s.log|), email, c, s.now) && |OpenFor(s.guesses, email)| <= k
    ensures Strikes(s, [], email, k, 0, c)
  {
    hide Replay, Run, Struck, Within, OpenFor, Volleyed;
    WithinNothing(s, email, k);
    RunNothing(s);
    NoVolley(s, email);
  }

  /** An attempt around a volley makes a volley one larger. */
  lemma StrikeAround(s: State, inner: seq<Event>, email: string, k: nat, j: nat, c: nat) returns (es: seq<Event>)
    requires !LockedIn(Replay(s.log, |s.log|), email, s.now) && |OpenFor(s.guesses, email)| + 1 <= k
    requires Strikes(Next(s, Ask(email)), inner, email, k, j, c)
    ensures Strikes(s, es, email, k, j + 1, c + 1)
  {
    var ask, settle := Ask(email), Settle(|s.guesses|, InvalidCredentials);
    AskOpens(s, email);
    var asked := Next(s, ask);
    assert asked.now == s.now;
    hide Next, Replay, LockedIn, Run, Struck, Within, OpenFor, Volleyed;
    var s' := Run(asked, inner);
    StrikesAre(asked, inner, email, k, j, c);
    SettleCloses(s, s', email, c, j);
    VolleyedOpen(s, Next(s', settle), email, j + 1);
    WithinOne(s, ask, email, k);
    WithinOne(s', settle, email, k);
    WithinThen(s, [ask], inner, email, k);
    WithinThen(s, [ask] + inner, [settle], email, k);
    es := [ask] + inner + [settle];
  }

  /** j attempts ask together, then all of them fail. */
  lemma {:induction false} Volley(s: State, email: string, c: nat, j: nat, k: nat) returns (es: seq<Event>)
    requires Struck(Replay(s.log, |s.log|), email, c, s.now) && (j > 0 ==> c < ROOM)
    requires |OpenFor(s.guesses, email)| + j <= k
    ensures Strikes(s, es, email, k, j, c + j)
    decreases j
  {
    hide *;
    if j == 0 {
      NoStrike(s, email, c, k);
      es := [];
    } else {
      StrikeOnce(Replay(s.log, |s.log|), email, c, s.now);
      AskOpens(s, email);
      var asked := Next(s, Ask(email));
      var inner := Volley(asked, email, c, j - 1, k);
      es := StrikeAround(s, inner, email, k, j - 1, c + (j - 1));
    }
  }

  /** One attempt at a time, c of them. */
  lemma {:induction false} OneByOne(s: State, email: string, c: nat, k: nat) returns (es: seq<Event>)
    requires Struck(Replay(s.log, |s.log|), email, 0, s.now) && c <= ROOM && k > 0 && OpenFor(s.guesses, email) == {}
    ensures Strikes(s, es, email, k, c, c)
  {
    hide *;
    if c == 0 {
      NoStrike(s, email, 0, k);
      es := [];
    } else {
      var init := OneByOne(s, email, c - 1, k);
      StrikesAre(s, init, email, k, c - 1, c - 1);
      var more := Volley(Run(s, init), email, c - 1, 1, k);
      StrikesThen(s, init, more, email, k, c - 1, c - 1, 1, c);
      es := init + more;
    }
  }

  lemma FiveFit()
    ensures 0 <= THRESHOLD < ROOM
  {}

  /** Five attempts in turn, then k at once. */
  lemma Salvo(s: State, email: string, k: nat) returns (es: seq<Event>)
    requires Struck(Replay(s.log, |s.log|), email, 0, s.now) && k > 0 && OpenFor(s.guesses, email) == {}
    ensures Strikes(s, es, email, k, k + THRESHOLD, k + THRESHOLD)
  {
    hide *;
    FiveFit();
    var init := OneByOne(s, email, THRESHOLD, k);
    StrikesAre(s, init, email, k, THRESHOLD, THRESHOLD);
    var more := Volley(Run(s, init), email, THRESHOLD, k, k);
    StrikesThen(s, init, more, email, k, THRESHOLD, THRESHOLD, k, THRESHOLD + k);
    es := init + more;
  }

  lemma SpentThen(s: State, s': State, email: string, from: int, j: nat)
    requires Spent(s, email, from, s.now) && from <= s.now && Volleyed(s, s', email, j)
    ensures Spent(s', email, from, s.now) && s'.now == s.now && |s'.guesses| == |s.guesses| + j
  {
    assert forall i | 0 <= i < |s.guesses| :: s'.guesses[i] == s.guesses[i];
    assert forall i | 0 <= i < |s.log| :: s'.log[i] == s.log[i];
  }

  lemma SpentIsSettled(s: State, email: string, from: int, until: int)
    requires Spent(s, email, from, until)
    ensures OpenFor(s.guesses, email) == {}
    ensures forall later | later >= until :: Spent(s, email, from, later)
  {}

  lemma WaitOut(s: State, email: string, from: int, c: nat, k: nat)
    requires Spent(s, email, from, s.now) && Struck(Replay(s.log, |s.log|), email, c, s.now) && c >= ROOM
    ensures var s' := s.(now := s.now + LOCKOUT_WINDOW);
      && Within(s, [Wait(LOCKOUT_WINDOW)], email, k) && Run(s, [Wait(LOCKOUT_WINDOW)]) == s'
      && Struck(Replay(s'.log, |s'.log|), email, 0, s'.now) && Spent(s', email, from, s'.now)
  {
    hide OpenFor, Struck, Replay;
    SpentIsSettled(s, email, from, s.now);
    CleanAgain(Replay(s.log, |s.log|), email, c, s.now);
    WithinOne(s, Wait(LOCKOUT_WINDOW), email, k);
  }

  lemma RoomFor(k: nat) returns (room: nat)
    requires k > 0
    ensures room == k + THRESHOLD >= ROOM
  {
    room := k + THRESHOLD;
  }

  lemma NoWindow(now: int, windows: nat)
    ensures LOCKOUT_WINDOW >= 0
    ensures windows == 0 ==> now + windows * LOCKOUT_WINDOW == now
    ensures windows > 0 ==> now + LOCKOUT_WINDOW + (windows - 1) * LOCKOUT_WINDOW == now + windows * LOCKOUT_WINDOW
  {}

  /** A salvo as soon as each lockout ends. */
  lemma {:induction false} Salvos(s: State, email: string, from: int, windows: nat, k: nat) returns (es: seq<Event>)
    requires Struck(Replay(s.log, |s.log|), email, 0, s.now) && Spent(s, email, from, s.now) && from <= s.now && k > 0
    ensures Within(s, es, email, k) && Spent(Run(s, es), email, from, s.now + windows * LOCKOUT_WINDOW)
    ensures |Run(s, es).guesses| == |s.guesses| + (k + THRESHOLD) * (windows + 1)
    decreases windows
  {
    hide *;
    var more: nat := RoomFor(k);
    MoreRoom(more, windows);
    SpentIsSettled(s, email, from, s.now);
    es := Salvo(s, email, k);
    StrikesAre(s, es, email, k, more, more);
    var s' := Run(s, es);
    SpentThen(s, s', email, from, more);
    NoWindow(s.now, windows);
    if windows > 0 {
      WaitOut(s', email, from, more, k);
      var rested := s'.(now := s'.now + LOCKOUT_WINDOW);
      var later := Salvos(rested, email, from, windows - 1, k);
      WithinThen(s, es, [Wait(LOCKOUT_WINDOW)], email, k);
      WithinThen(s, es + [Wait(LOCKOUT_WINDOW)], later, email, k);
      es := es + [Wait(LOCKOUT_WINDOW)] + later;
    }
  }

  lemma {:induction false} AllPicked(guesses: seq<Guess>, email: string, n: nat)
    requires n <= |guesses| && forall i | 0 <= i < n :: Counts(guesses[i], email, 0)
    ensures |Picked(guesses, email, 0, n)| == n
  {
    if n > 0 {
      AllPicked(guesses, email, n - 1);
    }
  }

  lemma SpentCounts(s: State, email: string, from: int, until: int, length: nat)
    requires Spent(s, email, from, until) && until <= from + length
    ensures NoLogin(s.log, email, 0, |s.log|)
    ensures CountIn(Verified(s.guesses, email, 0), from, length) == |s.guesses|
  {
    AllPicked(s.guesses, email, |s.guesses|);
    var times := Verified(s.guesses, email, 0);
    hide Picked, CountIn;
    AllIn(times, from, length);
  }

  /** These events take as many guesses within the length as the bound allows. */
  ghost predicate MeetsBound(now: int, es: seq<Event>, email: string, k: nat, length: nat) {
    var s := Run(Start(now), es);
    && Within(Start(now), es, email, k) && NoLogin(s.log, email, 0, |s.log|)
    && CountIn(Verified(s.guesses, email, 0), now, length) == (k + 5) * (length / 900_000_000_000 + 1)
  }

  lemma StartClean(now: int, email: string)
    ensures var s := Start(now);
      s.now == now && s.guesses == [] && Spent(s, email, now, now) && Struck(Replay(s.log, |s.log|), email, 0, now)
  {}

  /** For every length and every number of attempts at a time some schedule meets the bound. */
  lemma RacedBoundIsMet(now: int, email: string, k: nat, length: nat)
    requires k > 0
    ensures exists es :: MeetsBound(now, es, email, k, length)
  {
    var s, windows := Start(now), length / LOCKOUT_WINDOW;
    assert windows * LOCKOUT_WINDOW <= length;
    hide Start, Spent, Struck, Replay, Within, Run, NoLogin, CountIn, Verified;
    StartClean(now, email);
    var es := Salvos(s, email, now, windows, k);
    SpentCounts(Run(s, es), email, now, now + windows * LOCKOUT_WINDOW, length);
    assert MeetsBound(now, es, email, k, length);
  }
}
