/** What each operation on the member and profile tables stores and answers, value by value. */
module MemberCommits {
  import opened IdentityTables
  import opened MemberTransactions
  import ProfileColors

  /** The change an operation is there to make. */
  predicate Stores(before: Tables, op: Op, after: Tables) {
    match op
    case SetActive(id, active) =>
      && id in before.members && after.profiles == before.profiles
      && var m := before.members[id];
         after.members == before.members[id := Member(m.household, m.email, m.role, active)]
    case SetRole(id, role) =>
      && id in before.members && after.profiles == before.profiles
      && var m := before.members[id];
         after.members == before.members[id := Member(m.household, m.email, role, m.active)]
    case Create(id, household, email, role, color) =>
      && id !in before.members && after.profiles == before.profiles[id := color]
      && after.members == before.members[id := Member(household, email, role, true)]
    case EnsureProfile(id) =>
      && id in before.members && after.members == before.members
      && (after.profiles == before.profiles
          || (id !in before.profiles && id in after.profiles
              && after.profiles == before.profiles[id := after.profiles[id]]))
  }

  /** id is an active owner, and nobody else is one. */
  predicate SoleActiveOwner(members: map<UserId, Member>, id: UserId) {
    && id in members && members[id].role == Owner && members[id].active
    && forall other | other in members && other != id :: members[other].role != Owner || !members[other].active
  }

  lemma SoleOwnerIff(members: map<UserId, Member>, id: UserId)
    ensures SoleActiveOwner(members, id) <==> ActiveOwners(members) == {id}
  {
    if SoleActiveOwner(members, id) {
      assert id in ActiveOwners(members);
    } else if ActiveOwners(members) == {id} {
      assert id in ActiveOwners(members);
      assert forall other | other in members && other != id :: other !in ActiveOwners(members);
    }
  }

  // One operation alone.

  /** Main result: how SetActive and SetRole answer, and that exactly the field they are given
      is stored. */
  lemma UpdateStores(db: Tables, op: Op)
    requires op.SetActive? || op.SetRole?
    ensures var (after, outcome) := Effect(db, op);
      var lowers := if op.SetActive? then !op.active else op.role != Owner;
      && outcome == (if lowers && SoleActiveOwner(db.members, op.id) then LastActiveAdmin
                     else if op.id !in db.members then UserNotFound else Done)
      && if outcome == Done then Stores(db, op, after) else after == db
  {
    SoleOwnerIff(db.members, op.id);
    hide SoleActiveOwner, ActiveOwners;
  }

  lemma CreateStores(db: Tables, id: UserId, household: HouseholdId, email: string, role: Role, color: Color)
    ensures var (after, outcome) := Effect(db, Create(id, household, email, role, color));
      && outcome == (if id in db.members then Failed
                     else if exists other | other in db.members :: db.members[other].email == email then DuplicateEmail
                     else Done)
      && if outcome == Done then Stores(db, Create(id, household, email, role, color), after) else after == db
  {}

  /** How many profiles of a household wear a colour. */
  function Worn(db: Tables, household: HouseholdId, color: Color): nat {
    |set id | id in db.profiles && id in db.members && db.members[id].household == household && db.profiles[id] == color|
  }

  lemma WornIsUsed(db: Tables, household: HouseholdId, color: Color)
    ensures Worn(db, household, color) == Used(db, household, color)
  {
    var worn := set id | id in db.profiles && id in db.members && db.members[id].household == household
      && db.profiles[id] == color;
    assert worn == Wearers(db, household, color);
  }

  /** Main result: the colour given is the first in canonical order that no other is worn less than. */
  lemma EnsureProfileStores(db: Tables, id: UserId)
    ensures var (after, outcome) := Effect(db, EnsureProfile(id));
      && outcome == (if id !in db.members then UserNotFound else Done)
      && (id !in db.members || id in db.profiles || !db.members[id].active ==> after == db)
      && (id in db.members && id !in db.profiles && db.members[id].active ==>
            && after.members == db.members && id in after.profiles
            && after.profiles == db.profiles[id := after.profiles[id]]
            && var palette, h := [Indigo, Steel, Teal, Peri], db.members[id].household;
               exists i | 0 <= i < 4 ::
                 && after.profiles[id] == palette[i]
                 && (forall j | 0 <= j < i :: Worn(db, h, palette[j]) > Worn(db, h, palette[i]))
                 && (forall j | i < j < 4 :: Worn(db, h, palette[j]) >= Worn(db, h, palette[i])))
  {
    if id in db.members && id !in db.profiles && db.members[id].active {
      var h := db.members[id].household;
      forall color
        ensures Worn(db, h, color) == Used(db, h, color)
      {
        WornIsUsed(db, h, color);
      }
      hide Worn, Used;
      var i := FirstLeast(c => Used(db, h, c));
    }
  }

  // Any schedule.

  /** What one step of a transaction commits: its operation's change when it ends Done, and
      nothing in any other case. */
  lemma StepStores(s: State, t: TxId)
    requires ProfileColors.Invariant(s) && t in s.open
    ensures var s', op := Step(s, t, s.open[t]), s.open[t].op;
      if t in s'.open then s'.db == s.db
      else t in s'.closed && if s'.closed[t] == Done then Stores(s.db, op, s'.db) else s'.db == s.db
  {
    assert TxFits(s.open[t], s.db);
    if s.open[t].ProfileInserted? {
      ProfileColors.PendingIsFresh(s, t);
    }
    hide ProfileColors.Invariant, NextFor, ActiveOwners, Unlocked, HouseholdFree, EmailTaken, NoPendingRow;
  }

  /** Why a transaction that ends at this event answers other than Done. */
  ghost predicate Refused(s: State, e: Event, op: Op, outcome: Outcome) {
    match outcome
    case UserNotFound => !op.Create? && op.id !in s.db.members
    case LastActiveAdmin => (op.SetActive? && !op.active) || (op.SetRole? && op.role != Owner)
    case DuplicateEmail => op.Create? && exists other | other in s.db.members :: s.db.members[other].email == op.email
    case Failed => e.Abort? || (op.Create? && op.id in s.db.members)
    case Done => false
  }

  lemma StepRefuses(s: State, t: TxId)
    requires t in s.open && TxFits(s.open[t], s.db) && t !in Step(s, t, s.open[t]).open
    ensures var s' := Step(s, t, s.open[t]);
      t in s'.closed && (s'.closed[t] == Done || Refused(s, Advance(t), s.open[t].op, s'.closed[t]))
  {
    hide NextFor, ActiveOwners, Unlocked, HouseholdFree, NoPendingRow;
  }

  /** What an event commits, seen from outside: a row of another application, or the change of
      the one transaction it ends, which answers Done. */
  ghost predicate Explained(s: State, e: Event, s': State) {
    && (s'.db != s.db ==>
          || (e.Arrive? && e.id !in s.db.members && s'.db == Tables(s.db.members[e.id := e.member], s.db.profiles))
          || (e.Advance? && e.t in s.open && e.t !in s'.open))
    && forall t | t in s.open && t !in s'.open ::
         && t in s'.closed
         && if s'.closed[t] == Done then Stores(s.db, s.open[t].op, s'.db)
            else s'.db == s.db && Refused(s, e, s.open[t].op, s'.closed[t])
  }

  lemma NextExplained(s: State, e: Event)
    requires ProfileColors.Invariant(s)
    ensures Explained(s, e, Next(s, e))
  {
    if e.Advance? && e.t in s.open {
      StepStores(s, e.t);
      assert WellFormed(s);
      StepShape(s, e.t);
      if e.t !in Step(s, e.t, s.open[e.t]).open {
        StepRefuses(s, e.t);
      }
      hide Step, Stores, Refused, WellFormed, ProfileColors.Invariant;
    }
  }

  /** Main result: over every schedule, what is committed is exactly what each operation was
      given, at the moment it answers Done; aborts, refusals and steps in between commit nothing. */
  lemma EveryCommitIsItsOwn(db: Tables, es: seq<Event>, e: Event)
    requires ValidTables(db)
    ensures Explained(Run(Quiet(db), es), e, Next(Run(Quiet(db), es), e))
  {
    assert ProfileColors.Invariant(Quiet(db));
    hide Run, Next, Explained, ProfileColors.Invariant;
    ProfileColors.RunInvariant(Quiet(db), es);
    NextExplained(Run(Quiet(db), es), e);
  }

  // Row locks.

  /** No two transactions hold one row. */
  ghost predicate LocksApart(s: State) {
    forall t, t' | t in s.open && t' in s.open && t != t' :: RowLocks(s.open[t]) !! RowLocks(s.open[t'])
  }

  lemma KeepApart(s: State, t: TxId, tx: Tx)
    requires LocksApart(s) && Unlocked(s, t, RowLocks(tx))
    ensures LocksApart(Keep(s, t, tx))
  {
    hide RowLocks;
  }

  lemma HeldIsUnlocked(s: State, t: TxId)
    requires LocksApart(s) && t in s.open
    ensures Unlocked(s, t, RowLocks(s.open[t]))
  {
    hide RowLocks;
  }

  lemma UnlockedBoth(s: State, t: TxId, a: set<UserId>, b: set<UserId>)
    requires Unlocked(s, t, a) && Unlocked(s, t, b)
    ensures Unlocked(s, t, a + b)
  {
    hide RowLocks;
  }

  lemma NothingLocked(s: State, t: TxId)
    ensures Unlocked(s, t, {})
  {}

  /** The rows a step leaves its transaction holding were its own or free. */
  lemma StepLocks(s: State, t: TxId)
    requires LocksApart(s) && t in s.open && t in Step(s, t, s.open[t]).open
    ensures Unlocked(s, t, RowLocks(Step(s, t, s.open[t]).open[t]))
  {
    var tx := s.open[t];
    HeldIsUnlocked(s, t);
    NothingLocked(s, t);
    if tx.Checked? && Unlocked(s, t, {tx.op.id}) {
      UnlockedBoth(s, t, tx.owners, {tx.op.id});
    }
    hide NextFor, ActiveOwners, Unlocked, HouseholdFree, EmailTaken, NoPendingRow, LocksApart;
  }

  /** A row that changes was held by the transaction, or by nobody. */
  lemma StepRows(s: State, t: TxId, id: UserId)
    requires LocksApart(s) && t in s.open && TxFits(s.open[t], s.db) && id in s.db.members
    ensures var members := Step(s, t, s.open[t]).db.members;
      id in members && (members[id] != s.db.members[id] ==> Unlocked(s, t, {id}))
  {
    var tx := s.open[t];
    if tx.Updated? {
      HeldIsUnlocked(s, t);
      OneOfMany(s, t, RowLocks(tx), tx.op.id);
    }
    hide NextFor, ActiveOwners, Unlocked, HouseholdFree, EmailTaken, NoPendingRow, LocksApart;
  }

  lemma OneOfMany(s: State, t: TxId, ids: set<UserId>, id: UserId)
    requires Unlocked(s, t, ids) && id in ids
    ensures Unlocked(s, t, {id})
  {
    hide RowLocks;
  }

  lemma NextApart(s: State, e: Event)
    requires WellFormed(s) && LocksApart(s)
    ensures LocksApart(Next(s, e))
  {
    if e.Advance? {
      if e.t in s.open {
        assert TxFits(s.open[e.t], s.db);
        hide Step, LocksApart, WellFormed;
        StepShape(s, e.t);
        StepApart(s, e.t);
      }
    } else if e.Start? {
      NothingLocked(s, e.t);
      hide LocksApart;
      KeepApart(s, e.t, Begun(e.op));
    }
  }

  lemma ShapeIs(s: State, t: TxId, s': State)
    requires Shaped(s, t, s')
    ensures t in s'.open ==> s' == s || s' == Keep(s, t, s'.open[t])
    ensures t !in s'.open ==> t in s'.closed && s' == Close(s, t, s'.db, s'.closed[t])
  {
    hide TxFits;
  }

  lemma StepApart(s: State, t: TxId)
    requires LocksApart(s) && t in s.open && Shaped(s, t, Step(s, t, s.open[t]))
    ensures LocksApart(Step(s, t, s.open[t]))
  {
    var s' := Step(s, t, s.open[t]);
    ShapeIs(s, t, s');
    if t in s'.open && s' != s {
      StepLocks(s, t);
      hide Step, LocksApart, Shaped;
      KeepApart(s, t, s'.open[t]);
    } else {
      hide Step, Shaped, RowLocks;
    }
  }

  lemma {:induction false} RunApart(s: State, es: seq<Event>)
    requires WellFormed(s) && LocksApart(s)
    ensures WellFormed(Run(s, es)) && LocksApart(Run(s, es))
  {
    if es != [] {
      hide Next, WellFormed, LocksApart;
      var n := |es| - 1;
      RunApart(s, es[..n]);
      NextWellFormed(Run(s, es[..n]), es[n]);
      NextApart(Run(s, es[..n]), es[n]);
    }
  }

  lemma NextHolds(s: State, e: Event, t: TxId, id: UserId)
    requires WellFormed(s) && LocksApart(s) && t in s.open && id in RowLocks(s.open[t]) && id in s.db.members
    requires e != Advance(t)
    ensures id in Next(s, e).db.members && Next(s, e).db.members[id] == s.db.members[id]
  {
    if e.Advance? && e.t in s.open {
      assert TxFits(s.open[e.t], s.db);
      StepRows(s, e.t, id);
      hide Step, LocksApart, RowLocks, WellFormed;
    }
  }

  /** Main result: over every schedule no two transactions hold one member row, and a row that
      is held changes only by its holder. */
  lemma LockedRowsHold(db: Tables, es: seq<Event>, e: Event, t: TxId, id: UserId)
    requires ValidTables(db)
    requires var s := Run(Quiet(db), es); t in s.open && id in RowLocks(s.open[t]) && id in s.db.members
    ensures var s := Run(Quiet(db), es);
      && (forall t' | t' in s.open && t' != t :: id !in RowLocks(s.open[t']))
      && (e != Advance(t) ==> id in Next(s, e).db.members && Next(s, e).db.members[id] == s.db.members[id])
  {
    hide Run, Next, RowLocks;
    RunApart(Quiet(db), es);
    if e != Advance(t) {
      NextHolds(Run(Quiet(db), es), e, t, id);
    }
  }

  // Emails.

  predicate DistinctEmails(members: map<UserId, Member>) {
    forall id, other | id in members && other in members && id != other :: members[id].email != members[other].email
  }

  /** No two members, committed or about to be, have one email. */
  ghost predicate EmailInv(s: State) {
    && DistinctEmails(s.db.members)
    && (forall t | t in s.open && InsertsMember(s.open[t]) :: !EmailTaken(s.db.members, s.open[t].op.email))
    && (forall t, t' | t in s.open && t' in s.open && t != t' && InsertsMember(s.open[t]) && InsertsMember(s.open[t']) ::
          s.open[t].op.email != s.open[t'].op.email)
  }

  /** A member row is new, or keeps its email. */
  predicate EmailsKept(before: map<UserId, Member>, after: map<UserId, Member>) {
    forall id | id in before :: id in after && after[id].email == before[id].email
  }

  predicate NoPendingEmail(s: State, t: TxId, email: string) {
    forall t' | t' in s.open && t' != t && InsertsMember(s.open[t']) :: s.open[t'].op.email != email
  }

  lemma KeepEmails(s: State, t: TxId, tx: Tx)
    requires EmailInv(s)
    requires InsertsMember(tx) ==> !EmailTaken(s.db.members, tx.op.email) && NoPendingEmail(s, t, tx.op.email)
    ensures EmailInv(Keep(s, t, tx))
  {
    hide EmailTaken, DistinctEmails;
  }

  lemma CloseEmails(s: State, t: TxId, db: Tables, outcome: Outcome)
    requires EmailInv(s) && EmailsKept(s.db.members, db.members) && t in s.open
    requires forall id | id in db.members && id !in s.db.members ::
      InsertsMember(s.open[t]) && id == s.open[t].op.id && db.members[id].email == s.open[t].op.email
    ensures EmailInv(Close(s, t, db, outcome))
  {}

  /** A member a step is about to insert clashes with nobody. */
  lemma InsertingStep(s: State, t: TxId)
    requires EmailInv(s) && t in s.open && t in Step(s, t, s.open[t]).open
    ensures var tx := Step(s, t, s.open[t]).open[t];
      InsertsMember(tx) ==> !EmailTaken(s.db.members, tx.op.email) && NoPendingEmail(s, t, tx.op.email)
  {
    hide NextFor, ActiveOwners, Unlocked, HouseholdFree, EmailTaken, DistinctEmails;
    if InsertsMember(s.open[t]) {
      PendingAlready(s, t);
    }
  }

  lemma PendingAlready(s: State, t: TxId)
    requires EmailInv(s) && t in s.open && InsertsMember(s.open[t])
    ensures !EmailTaken(s.db.members, s.open[t].op.email) && NoPendingEmail(s, t, s.open[t].op.email)
  {
    hide EmailTaken, DistinctEmails;
  }

  /** The member rows a step commits. */
  lemma ClosingEmails(s: State, t: TxId)
    requires t in s.open && TxFits(s.open[t], s.db)
    ensures var members := Step(s, t, s.open[t]).db.members;
      && EmailsKept(s.db.members, members)
      && forall id | id in members && id !in s.db.members ::
           InsertsMember(s.open[t]) && id == s.open[t].op.id && members[id].email == s.open[t].op.email
  {
    hide NextFor, ActiveOwners, Unlocked, HouseholdFree, EmailTaken, NoPendingRow;
  }

  lemma StepEmails(s: State, t: TxId)
    requires WellFormed(s) && EmailInv(s) && t in s.open
    ensures EmailInv(Step(s, t, s.open[t]))
  {
    assert TxFits(s.open[t], s.db);
    hide *;
    var s' := Step(s, t, s.open[t]);
    StepShape(s, t);
    ShapeIs(s, t, s');
    if t !in s'.open {
      ClosingEmails(s, t);
      CloseEmails(s, t, s'.db, s'.closed[t]);
    } else if s' != s {
      InsertingStep(s, t);
      KeepEmails(s, t, s'.open[t]);
    }
  }

  lemma NextEmails(s: State, e: Event)
    requires WellFormed(s) && EmailInv(s)
    ensures EmailInv(Next(s, e))
  {
    hide Step, WellFormed;
    if e.Advance? {
      if e.t in s.open {
        StepEmails(s, e.t);
      }
    } else if e.Start? {
      KeepEmails(s, e.t, Begun(e.op));
    } else if e.Abort? {
      if e.t in s.open {
        CloseEmails(s, e.t, s.db, Failed);
      }
    } else {
      ArriveEmails(s, e);
    }
  }

  lemma ArriveEmails(s: State, e: Event)
    requires EmailInv(s) && e.Arrive?
    ensures EmailInv(Next(s, e))
  {
    hide Step;
  }

  lemma {:induction false} RunEmails(s: State, es: seq<Event>)
    requires WellFormed(s) && EmailInv(s)
    ensures WellFormed(Run(s, es)) && EmailInv(Run(s, es))
  {
    if es != [] {
      hide Next, WellFormed, EmailInv;
      var n := |es| - 1;
      RunEmails(s, es[..n]);
      NextWellFormed(Run(s, es[..n]), es[n]);
      NextEmails(Run(s, es[..n]), es[n]);
    }
  }

  /** Main result: members never come to share an email, whatever creates race each other and
      the other applications. */
  lemma EmailsStayUnique(db: Tables, es: seq<Event>)
    requires ValidTables(db) && DistinctEmails(db.members)
    ensures DistinctEmails(Run(Quiet(db), es).db.members)
  {
    hide Run, DistinctEmails;
    RunEmails(Quiet(db), es);
  }
}
