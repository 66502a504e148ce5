/** The last-active-admin guard, over every interleaving of member transactions. */
module LastActiveOwner {
  import opened IdentityTables
  import opened MemberTransactions

  /** A guarded update that has locked the active owners and not finished yet. */
  predicate PastLock(tx: Tx) {
    tx.OwnersLocked? || tx.Checked? || tx.Updated?
  }

  /** There is an active owner; whoever is past the lock step holds every row it saw, all of
      them still active owners, and once checked at least one of them is not its own target. */
  ghost predicate OwnerInv(s: State) {
    var owners := ActiveOwners(s.db.members);
    && owners != {}
    && (forall t | t in s.open && PastLock(s.open[t]) ::
          && s.open[t].owners != {} && s.open[t].owners <= owners
          && (!s.open[t].OwnersLocked? ==> s.open[t].owners != {s.open[t].op.id}))
    && (forall t, t' | t in s.open && t' in s.open && t != t' && PastLock(s.open[t]) ::
          !PastLock(s.open[t']))
  }

  lemma KeepOwnerInv(s: State, t: TxId, tx: Tx)
    requires OwnerInv(s) && t in s.open
    requires PastLock(tx) ==> PastLock(s.open[t]) && tx.owners == s.open[t].owners && tx.op == s.open[t].op
    requires PastLock(tx) && !tx.OwnersLocked? ==> tx.owners != {tx.op.id}
    ensures OwnerInv(Keep(s, t, tx))
  {
    hide ActiveOwners;
  }

  /** Taking the locks is possible only while nobody else is past them. */
  lemma LockOwnerInv(s: State, t: TxId, op: Op)
    requires OwnerInv(s) && t in s.open && Unlocked(s, t, ActiveOwners(s.db.members))
    ensures OwnerInv(Keep(s, t, OwnersLocked(op, ActiveOwners(s.db.members))))
  {
    hide ActiveOwners;
    forall t' | t' in s.open && t' != t
      ensures !PastLock(s.open[t'])
    {}
  }

  /** A change that keeps every locked owner an active owner. */
  lemma WriteOwnerInv(s: State, t: TxId, db: Tables, outcome: Outcome)
    requires OwnerInv(s) && ActiveOwners(db.members) != {}
    requires forall t' | t' in s.open && t' != t && PastLock(s.open[t']) :: s.open[t'].owners <= ActiveOwners(db.members)
    ensures OwnerInv(Close(s, t, db, outcome))
  {
    hide ActiveOwners;
  }

  lemma PatchMovesOne(members: map<UserId, Member>, op: Op)
    requires Patches(op) && op.id in members
    ensures var after := ActiveOwners(members[op.id := Patched(op, members[op.id])]);
      && ActiveOwners(members) - {op.id} <= after
      && (!Guarded(op) ==> ActiveOwners(members) <= after)
  {}

  lemma NewMemberKeepsOwners(members: map<UserId, Member>, id: UserId, m: Member)
    requires id !in members
    ensures ActiveOwners(members) <= ActiveOwners(members[id := m])
  {}

  lemma StepOwnerInv(s: State, t: TxId)
    requires OwnerInv(s) && WellFormed(s) && t in s.open
    ensures OwnerInv(Step(s, t, s.open[t]))
  {
    var tx, op, db := s.open[t], s.open[t].op, s.db;
    var s' := Step(s, t, tx);
    assert TxFits(tx, db);
    hide ActiveOwners, NextFor, HouseholdFree, NoPendingRow, EmailTaken, OwnerInv, WellFormed, Unlocked;
    if tx.Updated? {
      UpdateKeepsOwner(s, t);
    } else if tx.Begun? && Guarded(op) {
      if Unlocked(s, t, ActiveOwners(db.members)) {
        LockOwnerInv(s, t, op);
      }
    } else if t in s'.open {
      if s' != s {
        if tx.Checked? {
          CheckedHasOther(s, t);
        }
        KeepOwnerInv(s, t, s'.open[t]);
      }
    } else {
      if tx.ProfileToo? {
        NewMemberKeepsOwners(db.members, op.id, NewMember(op));
      } else if tx.Begun? && Patches(op) && op.id in db.members {
        PatchMovesOne(db.members, op);
      }
      GrowthKeepsOwnerInv(s, t, s'.db, s'.closed[t]);
    }
  }

  lemma UpdateKeepsOwner(s: State, t: TxId)
    requires OwnerInv(s) && WellFormed(s) && t in s.open && s.open[t].Updated?
    ensures OwnerInv(Step(s, t, s.open[t]))
  {
    var tx, op := s.open[t], s.open[t].op;
    assert TxFits(tx, s.db);
    PatchMovesOne(s.db.members, op);
    var other :| other in tx.owners && other != op.id;
    var db := s.db.(members := s.db.members[op.id := Patched(op, s.db.members[op.id])]);
    assert other in ActiveOwners(db.members);
    hide ActiveOwners;
    WriteOwnerInv(s, t, db, Done);
  }

  lemma CheckedHasOther(s: State, t: TxId)
    requires OwnerInv(s) && t in s.open && PastLock(s.open[t]) && !s.open[t].OwnersLocked?
    ensures s.open[t].owners != {s.open[t].op.id}
  {}

  lemma GrowthKeepsOwnerInv(s: State, t: TxId, db: Tables, outcome: Outcome)
    requires OwnerInv(s) && ActiveOwners(s.db.members) <= ActiveOwners(db.members)
    ensures OwnerInv(Close(s, t, db, outcome))
  {
    hide ActiveOwners;
  }

  lemma NextOwnerInv(s: State, e: Event)
    requires OwnerInv(s) && WellFormed(s)
    ensures OwnerInv(Next(s, e))
  {
    hide Step, ActiveOwners, EmailTaken, WellFormed;
    if e.Advance? {
      if e.t in s.open {
        StepOwnerInv(s, e.t);
      }
    } else if e.Arrive? && Next(s, e) != s {
      NewMemberKeepsOwners(s.db.members, e.id, e.member);
    }
  }

  lemma {:induction false} RunOwnerInv(db: Tables, es: seq<Event>)
    requires ValidTables(db) && ActiveOwners(db.members) != {}
    ensures OwnerInv(Run(Quiet(db), es)) && WellFormed(Run(Quiet(db), es))
  {
    if es != [] {
      hide Next, OwnerInv, WellFormed;
      var n := |es| - 1;
      RunOwnerInv(db, es[..n]);
      NextOwnerInv(Run(Quiet(db), es[..n]), es[n]);
      NextWellFormed(Run(Quiet(db), es[..n]), es[n]);
    }
  }

  /** Main result: once there is an active owner and nothing is in flight, there is one in
      every committed state any interleaving reaches. */
  lemma ActiveOwnerSurvives(db: Tables, es: seq<Event>)
    requires ValidTables(db) && ActiveOwners(db.members) != {}
    ensures ActiveOwners(Run(Quiet(db), es).db.members) != {}
  {
    hide Run;
    RunOwnerInv(db, es);
  }

  /** Two guarded updates are never both past the lock step. */
  lemma NeverBothPastLock(db: Tables, es: seq<Event>, t: TxId, t': TxId)
    requires ValidTables(db) && ActiveOwners(db.members) != {} && t != t'
    requires var s := Run(Quiet(db), es); t in s.open && t' in s.open && PastLock(s.open[t])
    ensures !PastLock(Run(Quiet(db), es).open[t'])
  {
    hide Run;
    RunOwnerInv(db, es);
  }

  // Without an owner to begin with, the guard has nothing to lock.

  /** Once some schedule has produced an active owner, extending it never loses the last one. */
  ghost predicate OwnersNeverLost(db: Tables) {
    forall es: seq<Event>, more: seq<Event> ::
      ActiveOwners(Run(Quiet(db), es).db.members) != {} ==>
        ActiveOwners(Run(Quiet(db), es + more).db.members) != {}
  }

  /** A demotion that looked for owners before there were any, then an owner made of its target. */
  lemma OwnerLost(s: State, m: UserId) returns (es: seq<Event>)
    requires s.open == map[] && ActiveOwners(s.db.members) == {} && m in s.db.members
    ensures ActiveOwners(Run(s, es).db.members) != {}
    ensures ActiveOwners(Run(s, es + [Advance(0), Advance(0)]).db.members) == {}
  {
    var down, up, on := SetRole(m, Adult), SetRole(m, Owner), SetActive(m, true);
    var first := [Start(0, down), Advance(0), Advance(0)];
    var second, third := [Start(1, up), Advance(1)], [Start(2, on), Advance(2)];
    var members := s.db.members;
    hide Run;
    GuardPassed(s, 0, down);
    var s1 := Run(s, first);
    PlainCommits(s1, 1, up);
    var s2 := Run(s1, second);
    PlainCommits(s2, 2, on);
    var s3 := Run(s2, third);
    assert m in ActiveOwners(s3.db.members);
    GuardedCommits(s3, 0, down, {});
    var last := Run(s3, [Advance(0), Advance(0)]).db.members;
    assert forall id | id in last && id != m :: last[id] == members[id];
    assert forall id | id in ActiveOwners(last) :: id in ActiveOwners(members);
    hide ActiveOwners;
    es := first + second + third;
    RunConcat(s, first, second);
    RunConcat(s, first + second, third);
    RunConcat(s, es, [Advance(0), Advance(0)]);
  }

  /** An empty table gets a member first, who is no owner. */
  lemma SomeMember(db: Tables) returns (es: seq<Event>, m: UserId)
    requires ActiveOwners(db.members) == {}
    ensures var s := Run(Quiet(db), es); s.open == map[] && ActiveOwners(s.db.members) == {} && m in s.db.members
  {
    if db.members != map[] {
      m :| m in db.members;
      es := [];
    } else {
      var op := Create(0, 0, "", Adult, Indigo);
      assert Effect(db, op).0.members == map[0 := NewMember(op)];
      SoloRun(Quiet(db), 0, op);
      es, m := Solo(0, op), 0;
    }
  }

  /** Main result: the guarantee holds exactly for databases that start out with an owner. */
  lemma OwnersNeverLostIff(db: Tables)
    requires ValidTables(db)
    ensures OwnersNeverLost(db) <==> ActiveOwners(db.members) != {}
  {
    hide Run, ActiveOwners;
    if ActiveOwners(db.members) != {} {
      forall es: seq<Event>, more: seq<Event>
        ensures ActiveOwners(Run(Quiet(db), es + more).db.members) != {}
      {
        ActiveOwnerSurvives(db, es + more);
      }
    } else {
      var first, m := SomeMember(db);
      var es := OwnerLost(Run(Quiet(db), first), m);
      var more := [Advance(0), Advance(0)];
      RunConcat(Quiet(db), first, es);
      RunConcat(Quiet(db), first, es + more);
      assert first + es + more == first + (es + more);
    }
  }
}
