/** Interleaved transactions over the member and profile tables. Each transaction takes one
    statement at a time; a statement that would wait for another transaction's lock leaves
    the state as it is. Uncommitted rows are visible to nobody else. */
module MemberTransactions {
  import Schedules
  import opened IdentityTables

  type TxId = nat

  /** An open transaction, by the last statement it completed. */
  datatype Tx =
    | Begun(op: Op)
    | OwnersLocked(op: Op, owners: set<UserId>)
    | Checked(op: Op, owners: set<UserId>)
    | Updated(op: Op, owners: set<UserId>)
    | MemberInserted(op: Op)
    | ProfileToo(op: Op)
    | ProfileMissing(op: Op, household: HouseholdId)
    | HouseholdLocked(op: Op, household: HouseholdId)
    | ColorChosen(op: Op, household: HouseholdId, color: Color)
    | ProfileInserted(op: Op, household: HouseholdId, color: Color, inserted: bool)

  datatype State = State(db: Tables, open: map<TxId, Tx>, closed: map<TxId, Outcome>)

  /** Arrive is a member written by another application, without a profile. */
  datatype Event =
    | Start(t: TxId, op: Op)
    | Advance(t: TxId)
    | Abort(t: TxId)
    | Arrive(id: UserId, member: Member)

  function Quiet(db: Tables): State {
    State(db, map[], map[])
  }

  // What an open transaction holds.

  function RowLocks(tx: Tx): set<UserId> {
    match tx
    case OwnersLocked(_, owners) => owners
    case Checked(_, owners) => owners
    case Updated(op, owners) => owners + {op.id}
    case _ => {}
  }

  /** No other transaction holds a row lock on any of ids. */
  predicate Unlocked(s: State, t: TxId, ids: set<UserId>) {
    forall t' | t' in s.open && t' != t :: RowLocks(s.open[t']) !! ids
  }

  predicate HoldsHousehold(tx: Tx, h: HouseholdId) {
    (tx.HouseholdLocked? || tx.ColorChosen? || tx.ProfileInserted?) && tx.household == h
  }

  predicate HouseholdFree(s: State, t: TxId, h: HouseholdId) {
    forall t' | t' in s.open && t' != t :: !HoldsHousehold(s.open[t'], h)
  }

  predicate InsertsMember(tx: Tx) {
    (tx.MemberInserted? || tx.ProfileToo?) && tx.op.Create?
  }

  /** No other transaction has an uncommitted member row with this id or email. */
  predicate NoPendingRow(s: State, t: TxId, id: UserId, email: string) {
    forall t' | t' in s.open && t' != t && InsertsMember(s.open[t']) ::
      s.open[t'].op.id != id && s.open[t'].op.email != email
  }

  // Steps.

  function Keep(s: State, t: TxId, tx: Tx): State {
    s.(open := s.open[t := tx])
  }

  function Close(s: State, t: TxId, db: Tables, outcome: Outcome): State {
    State(db, s.open - {t}, s.closed[t := outcome])
  }

  function Next(s: State, e: Event): State {
    match e
    case Start(t, op) => if t in s.open then s else Keep(s, t, Begun(op))
    case Advance(t) => if t in s.open then Step(s, t, s.open[t]) else s
    case Abort(t) => if t in s.open then Close(s, t, s.db, Failed) else s
    case Arrive(id, member) =>
      if id in s.db.members || EmailTaken(s.db.members, member.email)
        || exists t | t in s.open && InsertsMember(s.open[t]) :: s.open[t].op.id == id || s.open[t].op.email == member.email
      then s
      else s.(db := s.db.(members := s.db.members[id := member]))
  }

  function Step(s: State, t: TxId, tx: Tx): State {
    var op, db := tx.op, s.db;
    match tx
    case Begun(_) =>
      if op.Create? then InsertMember(s, t, op)
      else if op.EnsureProfile? then FindProfile(s, t, op)
      else if Guarded(op) then
        var owners := ActiveOwners(db.members);
        if Unlocked(s, t, owners) then Keep(s, t, OwnersLocked(op, owners)) else s
      else PlainUpdate(s, t, op)
    case OwnersLocked(_, owners) =>
      if owners == {op.id} then Close(s, t, db, LastActiveAdmin) else Keep(s, t, Checked(op, owners))
    case Checked(_, owners) =>
      if op.id !in db.members then Close(s, t, db, UserNotFound)
      else if Unlocked(s, t, {op.id}) then Keep(s, t, Updated(op, owners)) else s
    case Updated(_, _) =>
      if op.id in db.members && Patches(op)
      then Close(s, t, db.(members := db.members[op.id := Patched(op, db.members[op.id])]), Done)
      else s
    case MemberInserted(_) => Keep(s, t, ProfileToo(op))
    case ProfileToo(_) =>
      if op.Create?
      then Close(s, t, Tables(db.members[op.id := NewMember(op)], db.profiles[op.id := op.color]), Done)
      else s
    case ProfileMissing(_, h) => if HouseholdFree(s, t, h) then Keep(s, t, HouseholdLocked(op, h)) else s
    case HouseholdLocked(_, h) => Keep(s, t, ColorChosen(op, h, NextFor(db, h)))
    case ColorChosen(_, h, color) => Keep(s, t, ProfileInserted(op, h, color, op.id !in db.profiles))
    case ProfileInserted(_, _, color, inserted) =>
      Close(s, t, if inserted then db.(profiles := db.profiles[op.id := color]) else db, Done)
  }

  function InsertMember(s: State, t: TxId, op: Op): State
    requires op.Create?
  {
    if !NoPendingRow(s, t, op.id, op.email) then s
    else if op.id in s.db.members then Close(s, t, s.db, Failed)
    else if EmailTaken(s.db.members, op.email) then Close(s, t, s.db, DuplicateEmail)
    else Keep(s, t, MemberInserted(op))
  }

  function FindProfile(s: State, t: TxId, op: Op): State {
    if op.id !in s.db.members then Close(s, t, s.db, UserNotFound)
    else if op.id in s.db.profiles || !s.db.members[op.id].active then Close(s, t, s.db, Done)
    else Keep(s, t, ProfileMissing(op, s.db.members[op.id].household))
  }

  function PlainUpdate(s: State, t: TxId, op: Op): State
    requires Patches(op)
  {
    if op.id !in s.db.members then Close(s, t, s.db, UserNotFound)
    else if !Unlocked(s, t, {op.id}) then s
    else Close(s, t, s.db.(members := s.db.members[op.id := Patched(op, s.db.members[op.id])]), Done)
  }

  /** The state after a schedule. */
  function Run(s: State, es: seq<Event>): State
  {
    Schedules.Run(Next, s, es)
  }

  lemma RunConcat(s: State, es: seq<Event>, es': seq<Event>)
    ensures Run(s, es + es') == Run(Run(s, es), es')
  {
    Schedules.RunConcat(Next, s, es, es');
  }

  // Pieces of schedules.

  /** A guarded change that starts in quiet has passed its check after two more statements. */
  lemma GuardPassed(s: State, t: TxId, op: Op)
    requires s.open == map[] && Guarded(op) && ActiveOwners(s.db.members) != {op.id}
    ensures Run(s, [Start(t, op), Advance(t), Advance(t)])
      == s.(open := map[t := Checked(op, ActiveOwners(s.db.members))])
  {
    var owners := ActiveOwners(s.db.members);
    hide ActiveOwners;
    var s1, s2 := s.(open := map[t := Begun(op)]), s.(open := map[t := OwnersLocked(op, owners)]);
    assert Next(s, Start(t, op)) == s1;
    assert Next(s1, Advance(t)) == s2;
    assert Next(s2, Advance(t)) == s.(open := map[t := Checked(op, owners)]);
    hide Next;
    Schedules.RunThree(Next, s, Start(t, op), Advance(t), Advance(t));
  }

  function PatchedTables(db: Tables, op: Op): Tables
    requires Patches(op) && op.id in db.members
  {
    db.(members := db.members[op.id := Patched(op, db.members[op.id])])
  }

  /** A plain update nobody blocks commits at once. */
  lemma PlainCommits(s: State, t: TxId, op: Op)
    requires t !in s.open && Patches(op) && !Guarded(op) && op.id in s.db.members && Unlocked(s, t, {op.id})
    ensures var s' := Run(s, [Start(t, op), Advance(t)]); s'.open == s.open && s'.db == PatchedTables(s.db, op)
  {
    hide Unlocked;
    var s1 := Keep(s, t, Begun(op));
    assert Next(s, Start(t, op)) == s1;
    assert Unlocked(s1, t, {op.id}) by { UnlockedBeside(s, t, Begun(op), {op.id}); }
    assert s1.open - {t} == s.open;
    assert Next(s1, Advance(t)) == Close(s1, t, PatchedTables(s.db, op), Done);
    hide Next;
    Schedules.RunTwo(Next, s, Start(t, op), Advance(t));
  }

  lemma UnlockedBeside(s: State, t: TxId, tx: Tx, ids: set<UserId>)
    requires Unlocked(s, t, ids)
    ensures Unlocked(Keep(s, t, tx), t, ids)
  {}

  /** A guarded change past its check commits with two more statements. */
  lemma GuardedCommits(s: State, t: TxId, op: Op, owners: set<UserId>)
    requires t in s.open && s.open[t] == Checked(op, owners) && Guarded(op)
    requires op.id in s.db.members && Unlocked(s, t, {op.id})
    ensures var s' := Run(s, [Advance(t), Advance(t)]); s'.open == s.open - {t} && s'.db == PatchedTables(s.db, op)
  {
    hide Unlocked;
    var s1 := Keep(s, t, Updated(op, owners));
    assert Next(s, Advance(t)) == s1;
    assert s1.open - {t} == s.open - {t};
    assert Next(s1, Advance(t)) == Close(s1, t, PatchedTables(s.db, op), Done);
    hide Next;
    Schedules.RunTwo(Next, s, Advance(t), Advance(t));
  }

  /** Each transaction is in a place its operation can reach. */
  ghost predicate WellFormed(s: State) {
    && s.db.profiles.Keys <= s.db.members.Keys
    && (forall t | t in s.open :: TxFits(s.open[t], s.db))
    && (forall t, t' | t in s.open && t' in s.open && t != t' && InsertsMember(s.open[t]) && InsertsMember(s.open[t']) ::
          s.open[t].op.id != s.open[t'].op.id)
  }

  predicate TxFits(tx: Tx, db: Tables) {
    match tx
    case Begun(_) => true
    case OwnersLocked(op, _) => Guarded(op)
    case Checked(op, _) => Guarded(op)
    case Updated(op, _) => Guarded(op) && op.id in db.members
    case MemberInserted(op) => op.Create? && op.id !in db.members
    case ProfileToo(op) => op.Create? && op.id !in db.members
    case ProfileInserted(op, h, _, inserted) =>
      OwnHousehold(op, h, db)
    case _ => OwnHousehold(tx.op, tx.household, db)
  }

  predicate OwnHousehold(op: Op, h: HouseholdId, db: Tables) {
    op.EnsureProfile? && op.id in db.members && db.members[op.id].household == h
  }

  /** No member disappears or moves to another household. */
  predicate Grows(db: Tables, db': Tables) {
    forall id | id in db.members :: id in db'.members && db'.members[id].household == db.members[id].household
  }

  /** No other transaction is inserting this member. */
  predicate NotInserting(s: State, t: TxId, id: UserId) {
    forall t' | t' in s.open && t' != t && InsertsMember(s.open[t']) :: s.open[t'].op.id != id
  }

  lemma FitsLater(tx: Tx, db: Tables, db': Tables)
    requires TxFits(tx, db) && Grows(db, db') && (InsertsMember(tx) ==> tx.op.id !in db'.members)
    ensures TxFits(tx, db')
  {}

  lemma KeepWellFormed(s: State, t: TxId, tx: Tx)
    requires WellFormed(s) && TxFits(tx, s.db) && (InsertsMember(tx) ==> NotInserting(s, t, tx.op.id))
    ensures WellFormed(Keep(s, t, tx))
  {
    hide TxFits;
  }

  lemma CloseWellFormed(s: State, t: TxId, db: Tables, outcome: Outcome)
    requires WellFormed(s) && Grows(s.db, db) && db.profiles.Keys <= db.members.Keys
    requires forall id | id in db.members && id !in s.db.members :: NotInserting(s, t, id)
    ensures WellFormed(Close(s, t, db, outcome))
  {
    forall t' | t' in s.open && t' != t
      ensures TxFits(s.open[t'], db)
    {
      FitsLater(s.open[t'], s.db, db);
    }
    hide TxFits;
  }

  lemma NextWellFormed(s: State, e: Event)
    requires WellFormed(s)
    ensures WellFormed(Next(s, e))
  {
    hide EmailTaken;
    if e.Advance? {
      if e.t in s.open {
        hide Next;
        StepWellFormed(s, e.t);
        NextAdvances(s, e.t);
      }
    } else if e.Start? {
      KeepWellFormed(s, e.t, Begun(e.op));
    } else if e.Abort? {
      CloseWellFormed(s, e.t, s.db, Failed);
    } else {
      var db := Next(s, e).db;
      forall t | t in s.open
        ensures TxFits(s.open[t], db)
      {
        FitsLater(s.open[t], s.db, db);
      }
      hide TxFits;
    }
  }

  lemma NextAdvances(s: State, t: TxId)
    requires t in s.open
    ensures Next(s, Advance(t)) == Step(s, t, s.open[t])
  {
    hide Step;
  }

  /** A step blocks, moves its own transaction on, or closes it. */
  ghost predicate Shaped(s: State, t: TxId, s': State) {
    || (t in s'.open && s' == s)
    || (t in s'.open && s' == Keep(s, t, s'.open[t]) && TxFits(s'.open[t], s.db))
    || (t !in s'.open && t in s'.closed && s' == Close(s, t, s'.db, s'.closed[t]))
  }

  lemma KeepShaped(s: State, t: TxId, tx: Tx)
    requires TxFits(tx, s.db)
    ensures Shaped(s, t, Keep(s, t, tx))
  {
    hide TxFits;
  }

  lemma CloseShaped(s: State, t: TxId)
    ensures forall db, outcome :: Shaped(s, t, Close(s, t, db, outcome))
  {
    hide TxFits;
  }

  lemma StepShape(s: State, t: TxId)
    requires t in s.open && TxFits(s.open[t], s.db)
    ensures Shaped(s, t, Step(s, t, s.open[t]))
  {
    var tx, s' := s.open[t], Step(s, t, s.open[t]);
    CloseShaped(s, t);
    if t in s'.open && s' != s {
      KeptFits(s, t);
      hide Step, TxFits;
      KeepShaped(s, t, s'.open[t]);
    } else {
      assert s' == s || s' == Close(s, t, s'.db, s'.closed[t]) by { StayOrClose(s, t); }
      hide Step, TxFits;
      assert s' == s ==> Shaped(s, t, s');
    }
  }

  lemma KeptFits(s: State, t: TxId)
    requires t in s.open && TxFits(s.open[t], s.db) && t in Step(s, t, s.open[t]).open && Step(s, t, s.open[t]) != s
    ensures var s' := Step(s, t, s.open[t]); s' == Keep(s, t, s'.open[t]) && TxFits(s'.open[t], s.db)
  {
    hide NextFor, ActiveOwners, Unlocked, HouseholdFree, EmailTaken, NoPendingRow;
  }

  lemma StayOrClose(s: State, t: TxId)
    requires t in s.open && (t !in Step(s, t, s.open[t]).open || Step(s, t, s.open[t]) == s)
    ensures var s' := Step(s, t, s.open[t]); s' == s || (t in s'.closed && s' == Close(s, t, s'.db, s'.closed[t]))
  {
    hide NextFor, ActiveOwners, Unlocked, HouseholdFree, EmailTaken, NoPendingRow;
  }

  lemma StepWellFormed(s: State, t: TxId)
    requires WellFormed(s) && t in s.open
    ensures WellFormed(Step(s, t, s.open[t]))
  {
    hide Step, TxFits;
    var s' := Step(s, t, s.open[t]);
    StepShape(s, t);
    if t in s'.open {
      PendingStep(s, t);
      if s' != s {
        KeepWellFormed(s, t, s'.open[t]);
      }
    } else {
      ClosingStep(s, t);
      CloseWellFormed(s, t, s'.db, s'.closed[t]);
    }
  }

  lemma PendingStep(s: State, t: TxId)
    requires WellFormed(s) && t in s.open
    ensures var s' := Step(s, t, s.open[t]);
      t in s'.open && InsertsMember(s'.open[t]) ==> NotInserting(s, t, s'.open[t].op.id)
  {
    hide NextFor, ActiveOwners, Unlocked, HouseholdFree, EmailTaken, TxFits;
  }

  lemma ClosingStep(s: State, t: TxId)
    requires WellFormed(s) && t in s.open
    ensures var db := Step(s, t, s.open[t]).db;
      && Grows(s.db, db) && db.profiles.Keys <= db.members.Keys
      && forall id | id in db.members && id !in s.db.members :: NotInserting(s, t, id)
  {
    hide NextFor, ActiveOwners, Unlocked, HouseholdFree, EmailTaken, NoPendingRow;
    assert TxFits(s.open[t], s.db);
  }

  // Running one operation alone.

  /** Enough steps for any operation to finish when nothing is in its way. */
  function Solo(t: TxId, op: Op): seq<Event> {
    [Start(t, op)] + Schedules.Repeated(Advance(t), 5)
  }

  function Alone(s: State, t: TxId, tx: Tx): State {
    s.(open := map[t := tx])
  }

  /** What is left of a state with nothing open once an operation has run. */
  function Finished(s: State, t: TxId, op: Op): State {
    var (db, outcome) := Effect(s.db, op);
    State(db, map[], s.closed[t := outcome])
  }

  /** Nothing is in the way of the only open transaction. */
  lemma AloneSteps(s: State, t: TxId, tx: Tx)
    requires s.open == map[]
    ensures var a := Alone(s, t, tx);
      && (forall tx' :: Keep(a, t, tx') == Alone(s, t, tx'))
      && (forall db, outcome :: Close(a, t, db, outcome) == State(db, map[], s.closed[t := outcome]))
      && (forall ids :: Unlocked(a, t, ids))
      && (forall h :: HouseholdFree(a, t, h))
      && (forall id, email :: NoPendingRow(a, t, id, email))
  {
    assert forall tx' :: map[t := tx][t := tx'] == map[t := tx'];
    assert map[t := tx] - {t} == map[];
  }

  lemma NextAlone(s: State, t: TxId, tx: Tx)
    ensures Next(Alone(s, t, tx), Advance(t)) == Step(Alone(s, t, tx), t, tx)
  {
    hide Step;
  }

  lemma FinishedStays(s: State, t: TxId, op: Op)
    ensures Next(Finished(s, t, op), Advance(t)) == Finished(s, t, op)
  {
    hide Step, Effect;
  }

  lemma GuardedSteps(s: State, t: TxId, op: Op)
    requires s.open == map[] && Guarded(op)
    ensures var owners := ActiveOwners(s.db.members);
      Step(Alone(s, t, Begun(op)), t, Begun(op)) == Alone(s, t, OwnersLocked(op, owners))
    ensures var owners := ActiveOwners(s.db.members);
      Step(Alone(s, t, OwnersLocked(op, owners)), t, OwnersLocked(op, owners))
        == if owners == {op.id} then Finished(s, t, op) else Alone(s, t, Checked(op, owners))
    ensures var owners := ActiveOwners(s.db.members);
      owners != {op.id} && op.id in s.db.members ==>
        Step(Alone(s, t, Checked(op, owners)), t, Checked(op, owners)) == Alone(s, t, Updated(op, owners))
    ensures var owners := ActiveOwners(s.db.members);
      owners != {op.id} && op.id !in s.db.members ==>
        Step(Alone(s, t, Checked(op, owners)), t, Checked(op, owners)) == Finished(s, t, op)
    ensures var owners := ActiveOwners(s.db.members);
      owners != {op.id} && op.id in s.db.members ==>
        Step(Alone(s, t, Updated(op, owners)), t, Updated(op, owners)) == Finished(s, t, op)
  {
    var owners := ActiveOwners(s.db.members);
    hide ActiveOwners, Unlocked, Keep, Close;
    AloneSteps(s, t, Begun(op));
    AloneSteps(s, t, OwnersLocked(op, owners));
    AloneSteps(s, t, Checked(op, owners));
    AloneSteps(s, t, Updated(op, owners));
  }

  lemma PlainStep(s: State, t: TxId, op: Op)
    requires s.open == map[] && Patches(op) && !Guarded(op)
    ensures Step(Alone(s, t, Begun(op)), t, Begun(op)) == Finished(s, t, op)
  {
    hide Unlocked, Close;
    AloneSteps(s, t, Begun(op));
  }

  lemma CreateSteps(s: State, t: TxId, op: Op)
    requires s.open == map[] && op.Create?
    ensures var fits := op.id !in s.db.members && !EmailTaken(s.db.members, op.email);
      && Step(Alone(s, t, Begun(op)), t, Begun(op))
        == (if fits then Alone(s, t, MemberInserted(op)) else Finished(s, t, op))
      && Step(Alone(s, t, MemberInserted(op)), t, MemberInserted(op)) == Alone(s, t, ProfileToo(op))
      && (fits ==> Step(Alone(s, t, ProfileToo(op)), t, ProfileToo(op)) == Finished(s, t, op))
  {
    hide EmailTaken, NoPendingRow, Keep, Close;
    AloneSteps(s, t, Begun(op));
    AloneSteps(s, t, MemberInserted(op));
    AloneSteps(s, t, ProfileToo(op));
  }

  /** A member who is to get a profile. */
  predicate Unprovisioned(db: Tables, id: UserId) {
    id in db.members && id !in db.profiles && db.members[id].active
  }

  lemma EnsureFirstStep(s: State, t: TxId, op: Op)
    requires s.open == map[] && op.EnsureProfile?
    ensures Step(Alone(s, t, Begun(op)), t, Begun(op))
      == if Unprovisioned(s.db, op.id) then Alone(s, t, ProfileMissing(op, s.db.members[op.id].household))
         else Finished(s, t, op)
  {
    hide Keep, Close, NextFor;
    AloneSteps(s, t, Begun(op));
  }

  lemma EnsureSteps(s: State, t: TxId, op: Op, h: HouseholdId, color: Color)
    requires s.open == map[] && op.EnsureProfile? && Unprovisioned(s.db, op.id)
    requires h == s.db.members[op.id].household && color == NextFor(s.db, h)
    ensures Step(Alone(s, t, ProfileMissing(op, h)), t, ProfileMissing(op, h)) == Alone(s, t, HouseholdLocked(op, h))
    ensures Step(Alone(s, t, HouseholdLocked(op, h)), t, HouseholdLocked(op, h)) == Alone(s, t, ColorChosen(op, h, color))
    ensures Step(Alone(s, t, ColorChosen(op, h, color)), t, ColorChosen(op, h, color))
      == Alone(s, t, ProfileInserted(op, h, color, true))
    ensures Step(Alone(s, t, ProfileInserted(op, h, color, true)), t, ProfileInserted(op, h, color, true))
      == Finished(s, t, op)
  {
    hide HouseholdFree, NextFor, Keep, Close;
    AloneSteps(s, t, ProfileMissing(op, h));
    AloneSteps(s, t, HouseholdLocked(op, h));
    AloneSteps(s, t, ColorChosen(op, h, color));
    AloneSteps(s, t, ProfileInserted(op, h, color, true));
  }

  /** Five more steps of the only open transaction. */
  function Fifth(s: State, t: TxId): State {
    Next(Next(Next(Next(Next(s, Advance(t)), Advance(t)), Advance(t)), Advance(t)), Advance(t))
  }

  lemma SoloGuarded(s: State, t: TxId, op: Op)
    requires s.open == map[] && Guarded(op)
    ensures Fifth(Alone(s, t, Begun(op)), t) == Finished(s, t, op)
  {
    var owners := ActiveOwners(s.db.members);
    hide Next, Step, Alone, Finished, ActiveOwners;
    GuardedSteps(s, t, op);
    NextAlone(s, t, Begun(op));
    NextAlone(s, t, OwnersLocked(op, owners));
    NextAlone(s, t, Checked(op, owners));
    NextAlone(s, t, Updated(op, owners));
    FinishedStays(s, t, op);
  }

  lemma SoloCreate(s: State, t: TxId, op: Op)
    requires s.open == map[] && op.Create?
    ensures Fifth(Alone(s, t, Begun(op)), t) == Finished(s, t, op)
  {
    hide Next, Step, Alone, Finished, EmailTaken;
    CreateSteps(s, t, op);
    NextAlone(s, t, Begun(op));
    NextAlone(s, t, MemberInserted(op));
    NextAlone(s, t, ProfileToo(op));
    FinishedStays(s, t, op);
  }

  lemma SoloEnsureProfile(s: State, t: TxId, op: Op)
    requires s.open == map[] && op.EnsureProfile?
    ensures Fifth(Alone(s, t, Begun(op)), t) == Finished(s, t, op)
  {
    hide Next, Step, Alone, Finished, NextFor;
    EnsureFirstStep(s, t, op);
    NextAlone(s, t, Begun(op));
    FinishedStays(s, t, op);
    if Unprovisioned(s.db, op.id) {
      var h := s.db.members[op.id].household;
      var color := NextFor(s.db, h);
      EnsureSteps(s, t, op, h, color);
      NextAlone(s, t, ProfileMissing(op, h));
      NextAlone(s, t, HouseholdLocked(op, h));
      NextAlone(s, t, ColorChosen(op, h, color));
      NextAlone(s, t, ProfileInserted(op, h, color, true));
    }
  }

  lemma SoloPlain(s: State, t: TxId, op: Op)
    requires s.open == map[] && Patches(op) && !Guarded(op)
    ensures Fifth(Alone(s, t, Begun(op)), t) == Finished(s, t, op)
  {
    hide Next, Step, Alone, Finished;
    PlainStep(s, t, op);
    NextAlone(s, t, Begun(op));
    FinishedStays(s, t, op);
  }

  lemma RunSolo(s: State, t: TxId, op: Op)
    requires s.open == map[]
    ensures Run(s, Solo(t, op)) == Fifth(Alone(s, t, Begun(op)), t)
  {
    var s0, e := Alone(s, t, Begun(op)), Advance(t);
    assert Next(s, Start(t, op)) == s0;
    Schedules.RunStarting(Next, s, Start(t, op), e, 5);
    hide Next, Alone;
    Schedules.TimesStep(Next, s0, e, 0);
    Schedules.TimesStep(Next, s0, e, 1);
    Schedules.TimesStep(Next, s0, e, 2);
    Schedules.TimesStep(Next, s0, e, 3);
    Schedules.TimesStep(Next, s0, e, 4);
  }

  /** An operation scheduled with nothing else open does what it does on its own. */
  lemma SoloRun(s: State, t: TxId, op: Op)
    requires s.open == map[]
    ensures Run(s, Solo(t, op)) == Finished(s, t, op)
  {
    hide *;
    RunSolo(s, t, op);
    if op.Create? {
      SoloCreate(s, t, op);
    } else if op.EnsureProfile? {
      SoloEnsureProfile(s, t, op);
    } else if Guarded(op) {
      SoloGuarded(s, t, op);
    } else {
      PatchesOtherwise(op);
      SoloPlain(s, t, op);
    }
  }

  lemma PatchesOtherwise(op: Op)
    requires !op.Create? && !op.EnsureProfile?
    ensures Patches(op)
  {}
}
