/** The guard counts active owners of every household together. */
module HouseholdOwners {
  import opened IdentityTables
  import opened LastActiveOwner
  import opened MemberTransactions
  import Schedules

  function OwnersOf(members: map<UserId, Member>, h: HouseholdId): set<UserId> {
    set id | id in ActiveOwners(members) && members[id].household == h
  }

  predicate AllIn(members: map<UserId, Member>, h: HouseholdId) {
    forall id | id in members :: members[id].household == h
  }

  /** New members join household h or nobody joins. */
  predicate JoinsOnly(e: Event, h: HouseholdId) {
    && (e.Start? && e.op.Create? ==> e.op.household == h)
    && (e.Arrive? ==> e.member.household == h)
  }

  predicate AllJoin(es: seq<Event>, h: HouseholdId) {
    forall e | e in es :: JoinsOnly(e, h)
  }

  /** No schedule in which only household h gains members leaves it without an active owner. */
  ghost predicate HouseholdKeepsOwner(db: Tables, h: HouseholdId) {
    forall es: seq<Event> :: AllJoin(es, h) ==> OwnersOf(Run(Quiet(db), es).db.members, h) != {}
  }

  // One household only: the global count is the household's count.

  ghost predicate OneHousehold(s: State, h: HouseholdId) {
    && AllIn(s.db.members, h)
    && forall t | t in s.open && s.open[t].op.Create? :: s.open[t].op.household == h
  }

  lemma StepOneHousehold(s: State, t: TxId, h: HouseholdId)
    requires OneHousehold(s, h) && t in s.open
    ensures OneHousehold(Step(s, t, s.open[t]), h)
  {
    hide ActiveOwners, NextFor, HouseholdFree, NoPendingRow, EmailTaken, Unlocked;
  }

  lemma NextOneHousehold(s: State, e: Event, h: HouseholdId)
    requires OneHousehold(s, h) && JoinsOnly(e, h)
    ensures OneHousehold(Next(s, e), h)
  {
    hide EmailTaken, Step;
    if e.Advance? && e.t in s.open {
      StepOneHousehold(s, e.t, h);
    }
  }

  lemma {:induction false} RunOneHousehold(s: State, es: seq<Event>, h: HouseholdId)
    requires OneHousehold(s, h) && AllJoin(es, h)
    ensures OneHousehold(Run(s, es), h)
  {
    if es != [] {
      hide Next, OneHousehold, JoinsOnly;
      var n := |es| - 1;
      RunOneHousehold(s, es[..n], h);
      NextOneHousehold(Run(s, es[..n]), es[n], h);
    }
  }

  // Several households: an owner elsewhere lets every owner of this one go.

  lemma SoloJoins(t: TxId, op: Op, h: HouseholdId)
    requires Patches(op)
    ensures AllJoin(Solo(t, op), h)
  {}

  /** Deactivating one owner of h while y, of another household, is an active owner. */
  lemma Deactivated(members: map<UserId, Member>, h: HouseholdId, x: UserId, y: UserId)
    requires x in OwnersOf(members, h) && y in ActiveOwners(members) && members[y].household != h
    ensures ActiveOwners(members) != {x}
    ensures var after := members[x := members[x].(active := false)];
      OwnersOf(after, h) == OwnersOf(members, h) - {x} && y in ActiveOwners(after) && after[y].household != h
  {}

  lemma {:induction false} EmptyHousehold(s: State, h: HouseholdId, y: UserId) returns (es: seq<Event>)
    requires s.open == map[] && y in ActiveOwners(s.db.members) && s.db.members[y].household != h
    ensures AllJoin(es, h) && OwnersOf(Run(s, es).db.members, h) == {}
    decreases OwnersOf(s.db.members, h)
  {
    if OwnersOf(s.db.members, h) == {} {
      return [];
    }
    var x :| x in OwnersOf(s.db.members, h);
    var op := SetActive(x, false);
    var s' := Finished(s, 0, op);
    Deactivated(s.db.members, h, x, y);
    assert s'.db.members == s.db.members[x := s.db.members[x].(active := false)];
    hide Run, ActiveOwners, OwnersOf, JoinsOnly, Effect;
    SoloRun(s, 0, op);
    SoloJoins(0, op, h);
    var rest := EmptyHousehold(s', h, y);
    RunConcat(s, Solo(0, op), rest);
    es := Solo(0, op) + rest;
  }

  /** Making an active owner of an outsider first. */
  lemma Promote(s: State, h: HouseholdId, y: UserId) returns (es: seq<Event>)
    requires s.open == map[] && y in s.db.members && s.db.members[y].household != h
    ensures var s' := Run(s, es);
      AllJoin(es, h) && s'.open == map[] && y in ActiveOwners(s'.db.members) && s'.db.members[y].household != h
  {
    var up, on := SetRole(y, Owner), SetActive(y, true);
    var s1 := Finished(s, 0, up);
    var s2 := Finished(s1, 0, on);
    assert y in ActiveOwners(s2.db.members) && s2.db.members[y].household != h;
    hide Run, JoinsOnly, Finished, ActiveOwners;
    SoloRun(s, 0, up);
    SoloRun(s1, 0, on);
    SoloJoins(0, up, h);
    SoloJoins(0, on, h);
    RunConcat(s, Solo(0, up), Solo(0, on));
    es := Solo(0, up) + Solo(0, on);
  }

  /** Main result: a household that has an active owner is sure to keep one exactly when it
      is the only household with members. */
  lemma HouseholdKeepsOwnerIff(db: Tables, h: HouseholdId)
    requires ValidTables(db) && OwnersOf(db.members, h) != {}
    ensures HouseholdKeepsOwner(db, h) <==> AllIn(db.members, h)
  {
    hide Run, ActiveOwners, AllJoin;
    if AllIn(db.members, h) {
      forall es: seq<Event> | AllJoin(es, h)
        ensures OwnersOf(Run(Quiet(db), es).db.members, h) != {}
      {
        ActiveOwnerSurvives(db, es);
        RunOneHousehold(Quiet(db), es, h);
        var x :| x in ActiveOwners(Run(Quiet(db), es).db.members);
        OwnerOfHousehold(Run(Quiet(db), es).db.members, h, x);
      }
    } else {
      var y :| y in db.members && db.members[y].household != h;
      var first := Promote(Quiet(db), h, y);
      var rest := EmptyHousehold(Run(Quiet(db), first), h, y);
      RunConcat(Quiet(db), first, rest);
      JoinBoth(first, rest, h);
    }
  }

  lemma OwnerOfHousehold(members: map<UserId, Member>, h: HouseholdId, x: UserId)
    requires AllIn(members, h) && x in ActiveOwners(members)
    ensures x in OwnersOf(members, h)
  {}

  lemma JoinBoth(es: seq<Event>, es': seq<Event>, h: HouseholdId)
    requires AllJoin(es, h) && AllJoin(es', h)
    ensures AllJoin(es + es', h)
  {}

  /** Where other households may gain members too, no household is sure to keep an owner. */
  lemma NewcomersUndoIt(db: Tables, h: HouseholdId) returns (es: seq<Event>)
    ensures OwnersOf(Run(Quiet(db), es).db.members, h) == {}
  {
    var y, email := FreshRow(db.members);
    var arrival := Arrive(y, Member(h + 1, email, Owner, true));
    var db' := db.(members := db.members[y := arrival.member]);
    assert y in ActiveOwners(db'.members);
    assert Next(Quiet(db), arrival) == Quiet(db');
    hide Next, ActiveOwners, OwnersOf;
    var rest := EmptyHousehold(Quiet(db'), h, y);
    Schedules.RunOne(Next, Quiet(db), arrival);
    assert Run(Quiet(db), [arrival]) == Quiet(db');
    hide Run;
    RunConcat(Quiet(db), [arrival], rest);
    es := [arrival] + rest;
  }
}
