/** Provisioning reads whether a member is active before it takes its transaction's locks. */
module DeactivatedProfiles {
  import opened IdentityTables
  import opened LastActiveOwner
  import opened MemberTransactions
  import Schedules
  import ProfileColors

  /** Nothing happens but provisioning, (de)activating and re-roling member x. */
  predicate About(e: Event, x: UserId) {
    && !e.Arrive?
    && (e.Start? ==> e.op.id == x && !e.op.Create?)
  }

  predicate AllAbout(es: seq<Event>, x: UserId) {
    forall e | e in es :: About(e, x)
  }

  predicate IsActive(db: Tables, x: UserId) {
    x in db.members && db.members[x].active
  }

  /** This step commits a profile for x. */
  predicate Provisions(s: State, e: Event, x: UserId) {
    x !in s.db.profiles && x in Next(s, e).db.profiles
  }

  /** Whenever a commit gives x a profile, x is active at that moment. */
  ghost predicate AlwaysWhileActive(db: Tables, x: UserId) {
    forall es: seq<Event>, e: Event :: Provisions(Run(Quiet(db), es), e, x) ==> IsActive(Run(Quiet(db), es).db, x)
  }

  // At one commit: what happened since x was read.

  /** A deactivation of x commits. */
  predicate Deactivates(s: State, e: Event, x: UserId) {
    e.Advance? && e.t in s.open && s.open[e.t].Updated? && s.open[e.t].op == SetActive(x, false)
  }

  /** An activation of x commits. */
  predicate Activates(s: State, e: Event, x: UserId) {
    e.Advance? && e.t in s.open && s.open[e.t] == Begun(SetActive(x, true)) && e.t !in Next(s, e).open
  }

  /** A deactivation of x commits in this schedule, and no activation after it. */
  ghost predicate LeftInactive(s: State, es: seq<Event>, x: UserId) {
    exists k :: 0 <= k < |es| && Deactivates(Run(s, es[..k]), es[k], x) && NotActivatedSince(s, es, x, k)
  }

  ghost predicate NotActivatedSince(s: State, es: seq<Event>, x: UserId, k: nat) {
    forall m | k < m < |es| :: !Activates(Run(s, es[..m]), es[m], x)
  }

  lemma StepActive(s: State, t: TxId, x: UserId)
    requires WellFormed(s) && x in s.db.members && t in s.open
    ensures var s' := Step(s, t, s.open[t]);
      && x in s'.db.members
      && (s'.db.members[x].active <==>
            || (s.open[t] == Begun(SetActive(x, true)) && t !in s'.open)
            || (s.db.members[x].active && !(s.open[t].Updated? && s.open[t].op == SetActive(x, false))))
  {
    hide NextFor, ActiveOwners, Unlocked, HouseholdFree, EmailTaken, NoPendingRow;
    assert TxFits(s.open[t], s.db);
  }

  lemma NextActive(s: State, e: Event, x: UserId)
    requires WellFormed(s) && x in s.db.members
    ensures x in Next(s, e).db.members
    ensures IsActive(Next(s, e).db, x) <==> Activates(s, e, x) || (IsActive(s.db, x) && !Deactivates(s, e, x))
  {
    hide Step, EmailTaken, WellFormed;
    if e.Advance? && e.t in s.open {
      StepActive(s, e.t, x);
    }
  }

  lemma DeactivatesIsNotActivates(s: State, e: Event, x: UserId)
    ensures !(Deactivates(s, e, x) && Activates(s, e, x))
  {}

  /** One more event, against whether x was left inactive before it. */
  lemma LeftInactiveStep(s: State, es: seq<Event>, e: Event, x: UserId)
    ensures LeftInactive(s, es + [e], x)
      <==> Deactivates(Run(s, es), e, x) || (LeftInactive(s, es, x) && !Activates(Run(s, es), e, x))
  {
    hide Run, Deactivates, Activates;
    var all, n := es + [e], |es|;
    assert all[..n] == es && all[n] == e;
    assert forall k | 0 <= k < n :: all[..k] == es[..k] && all[k] == es[k];
    if Deactivates(Run(s, es), e, x) {
      assert Deactivates(Run(s, all[..n]), all[n], x) && NotActivatedSince(s, all, x, n);
    }
    if LeftInactive(s, es, x) && !Activates(Run(s, es), e, x) {
      var k :| 0 <= k < n && Deactivates(Run(s, es[..k]), es[k], x) && NotActivatedSince(s, es, x, k);
      assert Deactivates(Run(s, all[..k]), all[k], x) && NotActivatedSince(s, all, x, k);
    }
    if LeftInactive(s, all, x) && !Deactivates(Run(s, es), e, x) {
      var k :| 0 <= k < n + 1 && Deactivates(Run(s, all[..k]), all[k], x) && NotActivatedSince(s, all, x, k);
      assert k < n && !Activates(Run(s, all[..n]), all[n], x);
      assert Deactivates(Run(s, es[..k]), es[k], x);
      forall m | k < m < n
        ensures !Activates(Run(s, es[..m]), es[m], x)
      {
        assert !Activates(Run(s, all[..m]), all[m], x);
      }
      assert NotActivatedSince(s, es, x, k);
    }
  }

  lemma {:induction false} InactiveSince(s: State, es: seq<Event>, x: UserId)
    requires ProfileColors.Invariant(s) && IsActive(s.db, x)
    ensures x in Run(s, es).db.members && (!IsActive(Run(s, es).db, x) <==> LeftInactive(s, es, x))
  {
    if es != [] {
      var n := |es| - 1;
      assert es == es[..n] + [es[n]];
      hide Next, Deactivates, Activates, LeftInactive, IsActive, ProfileColors.LockInv, WellFormed;
      InactiveSince(s, es[..n], x);
      ProfileColors.RunInvariant(s, es[..n]);
      NextActive(Run(s, es[..n]), es[n], x);
      LeftInactiveStep(s, es[..n], es[n], x);
      DeactivatesIsNotActivates(Run(s, es[..n]), es[n], x);
    } else {
      assert IsActive(s.db, x) ==> x in s.db.members;
    }
  }

  /** Main result: after a provisioning of x has read x and gone on, x is inactive at any later
      moment, its commit among them, exactly when a deactivation of x committed since and no
      activation after it. */
  lemma InactiveAtCommitIff(db: Tables, es: seq<Event>, t: TxId, x: UserId, more: seq<Event>)
    requires ValidTables(db)
    requires var s := Run(Quiet(db), es);
      t in s.open && s.open[t] == Begun(EnsureProfile(x)) && t in Next(s, Advance(t)).open
    ensures var read := Next(Run(Quiet(db), es), Advance(t));
      !IsActive(Run(read, more).db, x) <==> LeftInactive(read, more, x)
  {
    var s := Run(Quiet(db), es);
    assert ProfileColors.Invariant(Quiet(db));
    hide Run, LeftInactive, ProfileColors.Invariant;
    ProfileColors.RunInvariant(Quiet(db), es);
    ProfileColors.NextInvariant(s, Advance(t));
    InactiveSince(Next(s, Advance(t)), more, x);
  }

  // The sole active owner cannot be deactivated, so cannot be provisioned late.

  /** Nobody but x becomes an active owner who was none at first. */
  ghost predicate NoNewOwner(db: Tables, es: seq<Event>, x: UserId) {
    forall n | 0 <= n <= |es| :: ActiveOwners(Run(Quiet(db), es[..n]).db.members) <= ActiveOwners(db.members) + {x}
  }

  ghost predicate OnlyWhileActive(db: Tables, x: UserId) {
    forall es: seq<Event>, e: Event ::
      NoNewOwner(db, es, x) && Provisions(Run(Quiet(db), es), e, x) ==> IsActive(Run(Quiet(db), es).db, x)
  }

  lemma SoleOwnerIsActive(db: Tables, es: seq<Event>, x: UserId)
    requires ValidTables(db) && ActiveOwners(db.members) == {x} && NoNewOwner(db, es, x)
    ensures IsActive(Run(Quiet(db), es).db, x)
  {
    hide Run;
    ActiveOwnerSurvives(db, es);
    assert es[..|es|] == es;
    var owner :| owner in ActiveOwners(Run(Quiet(db), es).db.members);
    assert owner == x;
  }

  // A schedule about x alone makes no other owner.

  ghost predicate OwnersWithin(s: State, x: UserId, owners: set<UserId>) {
    && ActiveOwners(s.db.members) <= owners + {x}
    && forall t | t in s.open :: s.open[t].op.id == x && !s.open[t].op.Create?
  }

  lemma StepOwnersWithin(s: State, t: TxId, x: UserId, owners: set<UserId>)
    requires OwnersWithin(s, x, owners) && t in s.open
    ensures OwnersWithin(Step(s, t, s.open[t]), x, owners)
  {
    hide NextFor, HouseholdFree, NoPendingRow, EmailTaken, Unlocked;
  }

  lemma NextOwnersWithin(s: State, e: Event, x: UserId, owners: set<UserId>)
    requires OwnersWithin(s, x, owners) && About(e, x)
    ensures OwnersWithin(Next(s, e), x, owners)
  {
    hide Step, ActiveOwners;
    if e.Advance? && e.t in s.open {
      StepOwnersWithin(s, e.t, x, owners);
    }
  }

  lemma {:induction false} RunOwnersWithin(s: State, es: seq<Event>, x: UserId, owners: set<UserId>)
    requires OwnersWithin(s, x, owners) && AllAbout(es, x)
    ensures OwnersWithin(Run(s, es), x, owners)
  {
    if es != [] {
      hide Next, OwnersWithin, About;
      var n := |es| - 1;
      RunOwnersWithin(s, es[..n], x, owners);
      NextOwnersWithin(Run(s, es[..n]), es[n], x, owners);
    }
  }

  lemma AboutMakesNoOwner(db: Tables, es: seq<Event>, x: UserId)
    requires AllAbout(es, x)
    ensures NoNewOwner(db, es, x)
  {
    forall n | 0 <= n <= |es|
      ensures ActiveOwners(Run(Quiet(db), es[..n]).db.members) <= ActiveOwners(db.members) + {x}
    {
      hide Run, About, ActiveOwners;
      RunOwnersWithin(Quiet(db), es[..n], x, ActiveOwners(db.members));
    }
  }

  // Anybody else can.

  /** Meanwhile an inactive x can be activated: the guard locked active owners only. */
  lemma ActivateX(s: State, x: UserId, owners: set<UserId>) returns (es: seq<Event>)
    requires s.open == map[1 := Checked(SetActive(x, false), owners)]
    requires x in s.db.members && (s.db.members[x].active || x !in owners)
    ensures AllAbout(es, x) && Run(s, es).open == s.open
    ensures Run(s, es).db == PatchedTables(s.db, SetActive(x, true))
  {
    if s.db.members[x].active {
      assert s.db.members == s.db.members[x := s.db.members[x].(active := true)];
      return [];
    }
    PlainCommits(s, 2, SetActive(x, true));
    es := [Start(2, SetActive(x, true)), Advance(2)];
  }

  /** x is read as active, and without a profile. */
  lemma ReadAsActive(s: State, x: UserId, owners: set<UserId>)
    requires s.open == map[1 := Checked(SetActive(x, false), owners)]
    requires IsActive(s.db, x) && x !in s.db.profiles
    ensures var s' := Run(s, [Start(0, EnsureProfile(x)), Advance(0)]);
      s'.open == s.open[0 := ProfileMissing(EnsureProfile(x), s.db.members[x].household)] && s'.db == s.db
  {
    var op := EnsureProfile(x);
    var s1 := s.(open := s.open[0 := Begun(op)]);
    assert Next(s, Start(0, op)) == s1;
    assert Next(s1, Advance(0)) == Keep(s1, 0, ProfileMissing(op, s.db.members[x].household));
    hide Next;
    Schedules.RunTwo(Next, s, Start(0, op), Advance(0));
  }

  /** The profile is inserted all the same. */
  lemma InsertLate(s: State, x: UserId, h: HouseholdId)
    requires s.open == map[0 := ProfileMissing(EnsureProfile(x), h)] && x !in s.db.profiles
    ensures var s' := Run(s, [Advance(0), Advance(0), Advance(0)]);
      s'.db == s.db && x in Next(s', Advance(0)).db.profiles
  {
    hide NextFor;
    var op, color := EnsureProfile(x), NextFor(s.db, h);
    var s1 := Keep(s, 0, HouseholdLocked(op, h));
    var s2 := Keep(s1, 0, ColorChosen(op, h, color));
    var s3 := Keep(s2, 0, ProfileInserted(op, h, color, true));
    assert HouseholdFree(s, 0, h);
    assert Next(s, Advance(0)) == s1;
    assert Next(s1, Advance(0)) == s2;
    assert Next(s2, Advance(0)) == s3;
    assert x in Next(s3, Advance(0)).db.profiles;
    hide Next;
    Schedules.RunThree(Next, s, Advance(0), Advance(0), Advance(0));
  }

  lemma AboutBoth(es: seq<Event>, es': seq<Event>, x: UserId)
    requires AllAbout(es, x) && AllAbout(es', x)
    ensures AllAbout(es + es', x)
  {
    hide About;
  }

  /** x is read as active by a provisioning, with a deactivation already past the guard. */
  lemma ReadTooEarly(db: Tables, x: UserId) returns (es: seq<Event>)
    requires x in db.members && x !in db.profiles && ActiveOwners(db.members) != {x}
    ensures var s, h := Run(Quiet(db), es), db.members[x].household;
      && AllAbout(es, x) && x in s.db.members && x !in s.db.profiles
      && s.open == map[1 := Checked(SetActive(x, false), ActiveOwners(db.members))][0 := ProfileMissing(EnsureProfile(x), h)]
  {
    var owners := ActiveOwners(db.members);
    assert x in owners ==> db.members[x].active;
    var es0, es2 := [Start(1, SetActive(x, false)), Advance(1), Advance(1)], [Start(0, EnsureProfile(x)), Advance(0)];
    assert AllAbout(es0, x) && AllAbout(es2, x);
    hide ActiveOwners, Run, AllAbout;
    GuardPassed(Quiet(db), 1, SetActive(x, false));
    var s0 := Run(Quiet(db), es0);
    var es1 := ActivateX(s0, x, owners);
    ReadAsActive(Run(s0, es1), x, owners);
    RunConcat(Quiet(db), es0, es1);
    RunConcat(Quiet(db), es0 + es1, es2);
    AboutBoth(es0, es1, x);
    AboutBoth(es0 + es1, es2, x);
    es := es0 + es1 + es2;
  }

  lemma ProvisionedLate(db: Tables, x: UserId) returns (es: seq<Event>)
    requires x in db.members && x !in db.profiles && ActiveOwners(db.members) != {x}
    ensures AllAbout(es, x)
    ensures var s := Run(Quiet(db), es);
      !IsActive(s.db, x) && x !in s.db.profiles && x in Next(s, Advance(0)).db.profiles
  {
    var owners, h := ActiveOwners(db.members), db.members[x].household;
    var ones, zeros := [Advance(1), Advance(1)], [Advance(0), Advance(0), Advance(0)];
    assert AllAbout(ones, x) && AllAbout(zeros, x);
    hide ActiveOwners, Run, Next, AllAbout;
    var read := ReadTooEarly(db, x);
    var s2 := Run(Quiet(db), read);
    GuardedCommits(s2, 1, SetActive(x, false), owners);
    assert s2.open - {1} == map[0 := ProfileMissing(EnsureProfile(x), h)];
    InsertLate(Run(s2, ones), x, h);
    RunConcat(Quiet(db), read, ones);
    RunConcat(Quiet(db), read + ones, zeros);
    AboutBoth(read, ones, x);
    AboutBoth(read + ones, zeros, x);
    es := read + ones + zeros;
  }

  lemma ProvisionedStays(db: Tables, x: UserId, es: seq<Event>)
    requires ValidTables(db) && x in db.profiles
    ensures x in Run(Quiet(db), es).db.profiles
  {
    hide Run, Next;
    ProfileColors.RunPreserves(Quiet(db), es);
  }

  /** Main result: while nobody else becomes an active owner, a member is sure to be active when
      its profile is committed exactly when the profile is there already or the member is the
      one active owner, whom nobody can deactivate. */
  lemma OnlyWhileActiveIff(db: Tables, x: UserId)
    requires ValidTables(db) && x in db.members
    ensures OnlyWhileActive(db, x) <==> x in db.profiles || ActiveOwners(db.members) == {x}
  {
    hide Run, Next, ActiveOwners, NoNewOwner;
    if x in db.profiles {
      forall es: seq<Event>
        ensures x in Run(Quiet(db), es).db.profiles
      {
        ProvisionedStays(db, x, es);
      }
    } else if ActiveOwners(db.members) == {x} {
      forall es: seq<Event> | NoNewOwner(db, es, x)
        ensures IsActive(Run(Quiet(db), es).db, x)
      {
        SoleOwnerIsActive(db, es, x);
      }
    } else {
      var es := ProvisionedLate(db, x);
      AboutMakesNoOwner(db, es, x);
      assert Provisions(Run(Quiet(db), es), Advance(0), x);
    }
  }

  /** A schedule that provisions x while inactive, after another owner has arrived if need be. */
  lemma ProvisionedLateByArrival(db: Tables, x: UserId) returns (es: seq<Event>)
    requires ValidTables(db) && x in db.members && x !in db.profiles
    ensures Provisions(Run(Quiet(db), es), Advance(0), x) && !IsActive(Run(Quiet(db), es).db, x)
  {
    if ActiveOwners(db.members) != {x} {
      es := ProvisionedLate(db, x);
    } else {
      var y, email := FreshRow(db.members);
      var arrival := Arrive(y, Member(0, email, Owner, true));
      var db' := db.(members := db.members[y := arrival.member]);
      assert y in ActiveOwners(db'.members);
      assert Next(Quiet(db), arrival) == Quiet(db');
      hide Next, ActiveOwners;
      var rest := ProvisionedLate(db', x);
      Schedules.RunOne(Next, Quiet(db), arrival);
      assert Run(Quiet(db), [arrival]) == Quiet(db');
      hide Run;
      RunConcat(Quiet(db), [arrival], rest);
      es := [arrival] + rest;
    }
  }

  /** Main result: over every schedule, a member is sure to be active when its profile is
      committed exactly when the profile is there already. */
  lemma AlwaysWhileActiveIff(db: Tables, x: UserId)
    requires ValidTables(db) && x in db.members
    ensures AlwaysWhileActive(db, x) <==> x in db.profiles
  {
    hide Run, Next;
    if x in db.profiles {
      forall es: seq<Event>
        ensures x in Run(Quiet(db), es).db.profiles
      {
        ProvisionedStays(db, x, es);
      }
    } else {
      var es := ProvisionedLateByArrival(db, x);
    }
  }
}
