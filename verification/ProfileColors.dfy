/** Profile provisioning under a household's advisory lock, over every interleaving. */
module ProfileColors {
  import opened IdentityTables
  import opened MemberTransactions

  predicate Holds(tx: Tx) {
    tx.HouseholdLocked? || tx.ColorChosen? || tx.ProfileInserted?
  }

  /** One transaction at a time holds a household's lock, and a row is pending only for a
      member that has no profile. */
  ghost predicate LockInv(s: State) {
    && (forall t, t' | t in s.open && t' in s.open && t != t' && Holds(s.open[t]) && Holds(s.open[t']) ::
          s.open[t].household != s.open[t'].household)
    && (forall t | t in s.open && s.open[t].ProfileInserted? ::
          s.open[t].inserted <==> s.open[t].op.id !in s.db.profiles)
  }

  lemma KeepLockInv(s: State, t: TxId, tx: Tx)
    requires LockInv(s)
    requires Holds(tx) ==> HouseholdFree(s, t, tx.household)
    requires tx.ProfileInserted? ==> (tx.inserted <==> tx.op.id !in s.db.profiles)
    ensures LockInv(Keep(s, t, tx))
  {}

  lemma HolderIsAlone(s: State, t: TxId)
    requires LockInv(s) && t in s.open && Holds(s.open[t])
    ensures HouseholdFree(s, t, s.open[t].household)
  {}

  /** Nobody else has a pending profile row for this member. */
  predicate NoPendingProfile(s: State, t: TxId, id: UserId) {
    forall t' | t' in s.open && t' != t && s.open[t'].ProfileInserted? :: s.open[t'].op.id != id
  }

  lemma CloseLockInv(s: State, t: TxId, db: Tables, outcome: Outcome)
    requires LockInv(s)
    requires s.db.profiles.Keys <= db.profiles.Keys
    requires forall id | id in db.profiles && id !in s.db.profiles :: NoPendingProfile(s, t, id)
    ensures LockInv(Close(s, t, db, outcome))
  {
    var s' := Close(s, t, db, outcome);
    forall t' | t' in s'.open && s'.open[t'].ProfileInserted?
      ensures s'.open[t'].inserted <==> s'.open[t'].op.id !in db.profiles
    {
      assert t' in s.open && t' != t;
    }
  }

  /** The profile rows one step of a transaction commits. */
  lemma StepProfiles(s: State, t: TxId)
    requires WellFormed(s) && LockInv(s) && t in s.open
    ensures var s' := Step(s, t, s.open[t]);
      || s'.db.profiles == s.db.profiles
      || (s.open[t].ProfileToo? && t !in s'.open && s.open[t].op.id !in s.db.members
          && s'.db.profiles == s.db.profiles[s.open[t].op.id := s.open[t].op.color])
      || (s.open[t].ProfileInserted? && t !in s'.open && s.open[t].op.id !in s.db.profiles
          && s'.db.profiles == s.db.profiles[s.open[t].op.id := s.open[t].color])
  {
    hide NextFor, ActiveOwners, Unlocked, HouseholdFree, EmailTaken, NoPendingRow;
    assert TxFits(s.open[t], s.db);
  }

  /** The locks one step of a transaction takes. */
  lemma StepHolds(s: State, t: TxId)
    requires LockInv(s) && t in s.open && t in Step(s, t, s.open[t]).open
    ensures var tx := Step(s, t, s.open[t]).open[t];
      && (Holds(tx) ==> HouseholdFree(s, t, tx.household))
      && (tx.ProfileInserted? ==> (tx.inserted <==> tx.op.id !in s.db.profiles))
  {
    hide NextFor, ActiveOwners, Unlocked, EmailTaken, NoPendingRow, HouseholdFree, LockInv;
    if Holds(s.open[t]) {
      HolderIsAlone(s, t);
    }
    if s.open[t].ProfileInserted? {
      PendingIsFresh(s, t);
    }
  }

  lemma PendingIsFresh(s: State, t: TxId)
    requires LockInv(s) && t in s.open && s.open[t].ProfileInserted?
    ensures s.open[t].inserted <==> s.open[t].op.id !in s.db.profiles
  {}

  lemma StepLockInv(s: State, t: TxId)
    requires WellFormed(s) && LockInv(s) && t in s.open
    ensures LockInv(Step(s, t, s.open[t]))
  {
    var s' := Step(s, t, s.open[t]);
    assert TxFits(s.open[t], s.db);
    StepShape(s, t);
    StepProfiles(s, t);
    if t in s'.open {
      StepHolds(s, t);
      hide Step, LockInv;
      if s' != s {
        KeepLockInv(s, t, s'.open[t]);
      }
    } else {
      hide Step;
      if s'.db.profiles != s.db.profiles {
        AloneWithProfile(s, t);
      }
      hide LockInv;
      CloseLockInv(s, t, s'.db, s'.closed[t]);
    }
  }

  lemma AloneWithProfile(s: State, t: TxId)
    requires WellFormed(s) && LockInv(s) && t in s.open
    requires s.open[t].ProfileInserted? || (s.open[t].ProfileToo? && s.open[t].op.id !in s.db.members)
    ensures NoPendingProfile(s, t, s.open[t].op.id)
  {
    assert TxFits(s.open[t], s.db);
    forall t' | t' in s.open && t' != t && s.open[t'].ProfileInserted?
      ensures s.open[t'].op.id != s.open[t].op.id
    {
      assert TxFits(s.open[t'], s.db);
    }
  }

  lemma NextLockInv(s: State, e: Event)
    requires WellFormed(s) && LockInv(s)
    ensures LockInv(Next(s, e))
  {
    hide Step, EmailTaken, WellFormed;
    if e.Advance? {
      if e.t in s.open {
        StepLockInv(s, e.t);
      }
    } else if e.Start? {
      KeepLockInv(s, e.t, Begun(e.op));
    } else if e.Abort? {
      CloseLockInv(s, e.t, s.db, Failed);
    }
  }

  ghost predicate Invariant(s: State) {
    WellFormed(s) && LockInv(s)
  }

  lemma NextInvariant(s: State, e: Event)
    requires Invariant(s)
    ensures Invariant(Next(s, e))
  {
    hide Next, WellFormed, LockInv;
    NextWellFormed(s, e);
    NextLockInv(s, e);
  }

  lemma {:induction false} RunInvariant(s: State, es: seq<Event>)
    requires Invariant(s)
    ensures Invariant(Run(s, es))
  {
    if es != [] {
      hide Next, Invariant;
      var n := |es| - 1;
      RunInvariant(s, es[..n]);
      NextInvariant(Run(s, es[..n]), es[n]);
    }
  }

  // A profile, once there, keeps its colour.

  /** Every row of before is in after, unchanged. */
  predicate Preserved(before: map<UserId, Color>, after: map<UserId, Color>) {
    forall id | id in before :: id in after && after[id] == before[id]
  }

  lemma NextPreserves(s: State, e: Event)
    requires Invariant(s)
    ensures Preserved(s.db.profiles, Next(s, e).db.profiles)
  {
    hide Step, EmailTaken;
    if e.Advance? && e.t in s.open {
      StepProfiles(s, e.t);
    }
  }

  lemma {:induction false} RunPreserves(s: State, es: seq<Event>)
    requires Invariant(s)
    ensures Preserved(s.db.profiles, Run(s, es).db.profiles)
  {
    if es != [] {
      hide Next, Invariant;
      var n := |es| - 1;
      RunPreserves(s, es[..n]);
      RunInvariant(s, es[..n]);
      NextPreserves(Run(s, es[..n]), es[n]);
    }
  }

  /** Main result: whatever is in flight when, no later commit replaces, recolours or removes
      a profile row that is there. */
  lemma ProfilesArePermanent(db: Tables, es: seq<Event>, more: seq<Event>)
    requires ValidTables(db)
    ensures Preserved(Run(Quiet(db), es).db.profiles, Run(Quiet(db), es + more).db.profiles)
  {
    hide Run, Preserved;
    RunInvariant(Quiet(db), es);
    RunPreserves(Run(Quiet(db), es), more);
    RunConcat(Quiet(db), es, more);
  }

  // Colours stay evenly spread in a household that EnsureProfile alone provisions.

  /** No colour is worn twice more often than another. */
  predicate Balanced(db: Tables, h: HouseholdId) {
    forall c, c' :: Used(db, h, c) <= Used(db, h, c') + 1
  }

  /** No member of h is created with a profile. */
  predicate Outside(e: Event, h: HouseholdId) {
    e.Start? && e.op.Create? ==> e.op.household != h
  }

  predicate AllOutside(es: seq<Event>, h: HouseholdId) {
    forall e | e in es :: Outside(e, h)
  }

  /** The holder of h's lock that has picked a colour picked the one that is next still. */
  ghost predicate ColorInv(s: State, h: HouseholdId) {
    && Balanced(s.db, h)
    && (forall t | t in s.open && s.open[t].op.Create? :: s.open[t].op.household != h)
    && (forall t | t in s.open && (s.open[t].ColorChosen? || s.open[t].ProfileInserted?) && s.open[t].household == h ::
          s.open[t].color == NextFor(s.db, h))
  }

  /** Commits that add profiles to other households only. */
  predicate Elsewhere(db: Tables, db': Tables, h: HouseholdId) {
    && db.profiles.Keys <= db.members.Keys && db'.profiles.Keys <= db'.members.Keys && Grows(db, db')
    && Preserved(db.profiles, db'.profiles)
    && forall id | id in db'.profiles && id !in db.profiles :: db'.members[id].household != h
  }

  lemma SameWearersOf(db: Tables, db': Tables, h: HouseholdId, c: Color)
    requires Elsewhere(db, db', h)
    ensures Wearers(db', h, c) == Wearers(db, h, c)
  {}

  lemma SameNext(db: Tables, db': Tables, h: HouseholdId)
    requires forall c :: Used(db', h, c) == Used(db, h, c)
    ensures NextFor(db', h) == NextFor(db, h) && (Balanced(db, h) ==> Balanced(db', h))
  {
    hide Used;
  }

  lemma SameWearers(db: Tables, db': Tables, h: HouseholdId)
    requires Elsewhere(db, db', h)
    ensures NextFor(db', h) == NextFor(db, h) && (Balanced(db, h) ==> Balanced(db', h))
  {
    hide Wearers, NextFor, Balanced, Elsewhere;
    forall c
      ensures Used(db', h, c) == Used(db, h, c)
    {
      SameWearersOf(db, db', h, c);
    }
    SameNext(db, db', h);
  }

  lemma CountsAfter(db: Tables, id: UserId, h: HouseholdId, next: Color, c: Color)
    requires id in db.members && id !in db.profiles && db.members[id].household == h
    ensures Used(db.(profiles := db.profiles[id := next]), h, c) == Used(db, h, c) + if c == next then 1 else 0
  {
    var db' := db.(profiles := db.profiles[id := next]);
    assert Wearers(db', h, c) == if c == next then Wearers(db, h, c) + {id} else Wearers(db, h, c);
  }

  lemma OneMoreWearer(db: Tables, id: UserId, h: HouseholdId)
    requires id in db.members && id !in db.profiles && db.members[id].household == h && Balanced(db, h)
    ensures Balanced(db.(profiles := db.profiles[id := NextFor(db, h)]), h)
  {
    hide Used, NextColor;
    var next := NextFor(db, h);
    var db' := db.(profiles := db.profiles[id := next]);
    forall c, c'
      ensures Used(db', h, c) <= Used(db', h, c') + 1
    {
      CountsAfter(db, id, h, next, c);
      CountsAfter(db, id, h, next, c');
      NextColorIsLeast(x => Used(db, h, x), c');
    }
  }

  /** What a step picks in household h, and what operation it belongs to. */
  lemma StepPicks(s: State, t: TxId, h: HouseholdId)
    requires ColorInv(s, h) && t in s.open && t in Step(s, t, s.open[t]).open
    ensures var tx := Step(s, t, s.open[t]).open[t];
      && tx.op == s.open[t].op
      && ((tx.ColorChosen? || tx.ProfileInserted?) && tx.household == h ==> tx.color == NextFor(s.db, h))
  {
    hide NextFor, ActiveOwners, Unlocked, EmailTaken, NoPendingRow, HouseholdFree, Balanced;
  }

  lemma KeepColorInv(s: State, t: TxId, tx: Tx, h: HouseholdId)
    requires ColorInv(s, h) && (tx.op.Create? ==> tx.op.household != h)
    requires (tx.ColorChosen? || tx.ProfileInserted?) && tx.household == h ==> tx.color == NextFor(s.db, h)
    ensures ColorInv(Keep(s, t, tx), h)
  {
    hide NextFor, Balanced;
  }

  /** A commit that leaves the colours of h alone, or is the only one to hold h's lock. */
  lemma CloseColorInv(s: State, t: TxId, db: Tables, outcome: Outcome, h: HouseholdId)
    requires ColorInv(s, h) && Balanced(db, h)
    requires NextFor(db, h) == NextFor(s.db, h) || HouseholdFree(s, t, h)
    ensures ColorInv(Close(s, t, db, outcome), h)
  {
    hide NextFor, Balanced;
  }

  lemma StepColorInv(s: State, t: TxId, h: HouseholdId)
    requires Invariant(s) && ColorInv(s, h) && t in s.open
    ensures ColorInv(Step(s, t, s.open[t]), h)
  {
    var s', tx := Step(s, t, s.open[t]), s.open[t];
    assert TxFits(tx, s.db);
    StepShape(s, t);
    hide NextFor, Balanced;
    if t in s'.open {
      StepPicks(s, t, h);
      if s' != s {
        hide Step;
        KeepColorInv(s, t, s'.open[t], h);
      }
    } else if tx.ProfileInserted? && tx.household == h && s'.db.profiles != s.db.profiles {
      StepProfiles(s, t);
      HolderIsAlone(s, t);
      OneMoreWearer(s.db, tx.op.id, h);
      assert s'.db == s.db.(profiles := s.db.profiles[tx.op.id := NextFor(s.db, h)]);
      hide Step;
      CloseColorInv(s, t, s'.db, s'.closed[t], h);
    } else {
      hide Step;
      CommitElsewhere(s, t, h);
      CloseColorInv(s, t, s'.db, s'.closed[t], h);
    }
  }

  lemma CommitElsewhere(s: State, t: TxId, h: HouseholdId)
    requires Invariant(s) && ColorInv(s, h) && t in s.open && t !in Step(s, t, s.open[t]).open
    requires s.open[t].ProfileInserted? && s.open[t].household == h ==> Step(s, t, s.open[t]).db.profiles == s.db.profiles
    ensures var db := Step(s, t, s.open[t]).db; NextFor(db, h) == NextFor(s.db, h) && Balanced(db, h)
  {
    hide NextFor, Balanced, LockInv;
    var db := Step(s, t, s.open[t]).db;
    assert TxFits(s.open[t], s.db);
    StepProfiles(s, t);
    ClosingStep(s, t);
    if s.open[t].ProfileToo? {
      CreatedOutside(s, t, h);
    }
    hide Step, WellFormed;
    SameWearers(s.db, db, h);
  }

  lemma CreatedOutside(s: State, t: TxId, h: HouseholdId)
    requires WellFormed(s) && ColorInv(s, h) && t in s.open && s.open[t].ProfileToo?
    ensures var db := Step(s, t, s.open[t]).db;
      s.open[t].op.id in db.members && db.members[s.open[t].op.id].household != h
  {
    hide Balanced, NextFor;
    assert TxFits(s.open[t], s.db);
  }

  lemma NextColorInv(s: State, e: Event, h: HouseholdId)
    requires Invariant(s) && ColorInv(s, h) && Outside(e, h)
    ensures ColorInv(Next(s, e), h)
  {
    hide Step, EmailTaken, NextFor, Balanced, LockInv;
    if e.Advance? {
      if e.t in s.open {
        StepColorInv(s, e.t, h);
      }
    } else if e.Start? {
      KeepColorInv(s, e.t, Begun(e.op), h);
    } else if e.Abort? {
      CloseColorInv(s, e.t, s.db, Failed, h);
    } else {
      SameWearers(s.db, Next(s, e).db, h);
    }
  }

  lemma {:induction false} RunColorInv(s: State, es: seq<Event>, h: HouseholdId)
    requires Invariant(s) && ColorInv(s, h) && AllOutside(es, h)
    ensures ColorInv(Run(s, es), h)
  {
    if es != [] {
      hide Next, Invariant, ColorInv, Outside;
      var n := |es| - 1;
      RunColorInv(s, es[..n], h);
      RunInvariant(s, es[..n]);
      NextColorInv(Run(s, es[..n]), es[n], h);
    }
  }

  /** Main result: provisioning spreads the four colours evenly, whatever races it. */
  lemma ColorsStayBalanced(db: Tables, es: seq<Event>, h: HouseholdId)
    requires ValidTables(db) && Balanced(db, h) && AllOutside(es, h)
    ensures Balanced(Run(Quiet(db), es).db, h)
  {
    hide Run, Balanced, AllOutside;
    RunColorInv(Quiet(db), es, h);
  }

  // What an even spread means for the first four.

  function ProfilesOf(db: Tables, h: HouseholdId): set<UserId> {
    set id | id in db.profiles && id in db.members && db.members[id].household == h
  }

  predicate AllDistinct(db: Tables, h: HouseholdId) {
    forall id, id' | id in ProfilesOf(db, h) && id' in ProfilesOf(db, h) && id != id' ::
      db.profiles[id] != db.profiles[id']
  }

  lemma CountByColor(db: Tables, h: HouseholdId)
    ensures |ProfilesOf(db, h)| == Used(db, h, Indigo) + Used(db, h, Steel) + Used(db, h, Teal) + Used(db, h, Peri)
  {
    var i, s, t, p := Wearers(db, h, Indigo), Wearers(db, h, Steel), Wearers(db, h, Teal), Wearers(db, h, Peri);
    assert i !! s && (i + s) !! t && (i + s + t) !! p;
    forall id | id in ProfilesOf(db, h)
      ensures id in i + s + t + p
    {
      match db.profiles[id] case Indigo => case Steel => case Teal => case Peri =>
    }
    assert ProfilesOf(db, h) == i + s + t + p;
  }

  lemma DistinctMeansOnce(db: Tables, h: HouseholdId)
    ensures AllDistinct(db, h) <==> forall c :: Used(db, h, c) <= 1
  {
    if AllDistinct(db, h) {
      forall c
        ensures Used(db, h, c) <= 1
      {
        AtMostOne(Wearers(db, h, c));
      }
    } else {
      var id, id' :| id in ProfilesOf(db, h) && id' in ProfilesOf(db, h) && id != id'
        && db.profiles[id] == db.profiles[id'];
      AtMostOne(Wearers(db, h, db.profiles[id]));
      assert id in Wearers(db, h, db.profiles[id]) && id' in Wearers(db, h, db.profiles[id]);
      assert Used(db, h, db.profiles[id]) > 1;
    }
  }

  lemma AtMostOne(s: set<UserId>)
    ensures |s| <= 1 <==> forall x, y | x in s && y in s :: x == y
  {
    if s != {} {
      var x :| x in s;
      assert |s - {x}| == |s| - 1;
      if |s| > 1 {
        var y :| y in s - {x};
      }
    }
  }

  /** Main result: in a household without profiles to begin with, the profiles EnsureProfile
      gives out have pairwise different colours exactly while there are at most four. */
  lemma FirstFourDistinct(db: Tables, es: seq<Event>, h: HouseholdId)
    requires ValidTables(db) && ProfilesOf(db, h) == {} && AllOutside(es, h)
    ensures var db' := Run(Quiet(db), es).db; AllDistinct(db', h) <==> |ProfilesOf(db', h)| <= 4
  {
    var db' := Run(Quiet(db), es).db;
    CountByColor(db, h);
    hide Wearers, Run, ProfilesOf, AllDistinct;
    assert Balanced(db, h) by {
      forall c
        ensures Used(db, h, c) == 0
      {
        match c case Indigo => case Steel => case Teal => case Peri =>
      }
    }
    ColorsStayBalanced(db, es, h);
    CountByColor(db', h);
    DistinctMeansOnce(db', h);
    var used := c => Used(db', h, c);
    BalancedFour(used);
    assert forall c :: used(c) == Used(db', h, c);
  }

  lemma BalancedFour(used: Color -> nat)
    requires forall c, c' :: used(c) <= used(c') + 1
    ensures (forall c :: used(c) <= 1) <==> used(Indigo) + used(Steel) + used(Teal) + used(Peri) <= 4
  {
    if used(Indigo) + used(Steel) + used(Teal) + used(Peri) <= 4 {
      forall c
        ensures used(c) <= 1
      {
        assert used(c) <= used(Indigo) + 1 && used(c) <= used(Steel) + 1
          && used(c) <= used(Teal) + 1 && used(c) <= used(Peri) + 1;
        match c case Indigo => case Steel => case Teal => case Peri =>
      }
    } else {
      assert exists c :: used(c) > 1 by {
        assert used(Indigo) > 1 || used(Steel) > 1 || used(Teal) > 1 || used(Peri) > 1;
      }
    }
  }
}
