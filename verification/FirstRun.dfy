/** Creating the first admin: a check and an insert made one step by an advisory lock. */
module FirstRun {
  import Schedules
  import opened IdentityTables

  type TxId = nat

  /** A submission of the wizard, with the identifiers drawn for it. */
  datatype Admin = Admin(id: UserId, email: string, newHousehold: HouseholdId)

  datatype SetupTables = SetupTables(members: map<UserId, Member>, households: seq<HouseholdId>)

  datatype Outcome = Provisioned | SetupComplete | AmbiguousHousehold | Errored

  predicate Collides(db: SetupTables, a: Admin) {
    a.id in db.members || EmailTaken(db.members, a.email)
  }

  /** The wizard's member: an active owner. */
  function FirstOwner(a: Admin, household: HouseholdId): Member {
    Member(household, a.email, Owner, true)
  }

  /** What CreateFirstAdmin does when nothing else is going on. */
  function SetupEffect(db: SetupTables, a: Admin): (SetupTables, Outcome) {
    if db.members != map[] then (db, SetupComplete)
    else if |db.households| > 1 then (db, AmbiguousHousehold)
    else
      var h := if db.households == [] then a.newHousehold else db.households[0];
      (SetupTables(map[a.id := FirstOwner(a, h)], [h]), Provisioned)
  }

  class Provisioner {
    var members: map<UserId, Member>
    var households: seq<HouseholdId>

    ghost function Db(): SetupTables
      reads this
    {
      SetupTables(members, households)
    }

    constructor (members: map<UserId, Member>, households: seq<HouseholdId>)
      ensures Db() == SetupTables(members, households)
    {
      this.members := members;
      this.households := households;
    }

    /** Adopt the only household, found one when there is none, refuse to guess between several. */
    method ResolveHouseholdForSetup(newHousehold: HouseholdId) returns (household: HouseholdId, ambiguous: bool)
      modifies this`households
      ensures ambiguous <==> |old(households)| > 1
      ensures ambiguous ==> households == old(households)
      ensures !ambiguous ==> households == [household] && old(households) in {[], [household]}
      ensures !ambiguous && old(households) == [] ==> household == newHousehold
    {
      household, ambiguous := newHousehold, false;
      if |households| == 0 {
        households := households + [newHousehold];
      } else if |households| == 1 {
        household := households[0];
      } else {
        ambiguous := true;
      }
    }

    method CreateFirstAdmin(a: Admin) returns (outcome: Outcome)
      modifies this
      ensures (Db(), outcome) == SetupEffect(old(Db()), a)
    {
      if |members| > 0 {
        return SetupComplete;
      }
      var household, ambiguous := ResolveHouseholdForSetup(a.newHousehold);
      if ambiguous {
        return AmbiguousHousehold;
      }
      members := members[a.id := FirstOwner(a, household)];
      outcome := Provisioned;
    }
  }

  // Any number of submissions at once.

  /** An open transaction, by the last statement it completed. */
  datatype Tx =
    | Begun(a: Admin)
    | Locked(a: Admin)
    | NoUserYet(a: Admin)
    | NoHousehold(a: Admin)
    | Attached(a: Admin, household: HouseholdId, founded: bool)
    | Inserted(a: Admin, household: HouseholdId, founded: bool)

  datatype Closed = Closed(a: Admin, outcome: Outcome)

  datatype State = State(db: SetupTables, open: map<TxId, Tx>, closed: map<TxId, Closed>)

  /** Joined and Founded are rows another application commits without taking the lock. */
  datatype Event =
    | Start(t: TxId, a: Admin)
    | Advance(t: TxId)
    | Abort(t: TxId)
    | Joined(id: UserId, member: Member)
    | Founded(household: HouseholdId)

  predicate LockFree(s: State, t: TxId) {
    forall t' | t' in s.open && t' != t :: s.open[t'].Begun?
  }

  function Keep(s: State, t: TxId, tx: Tx): State {
    s.(open := s.open[t := tx])
  }

  function Close(s: State, t: TxId, a: Admin, db: SetupTables, outcome: Outcome): State {
    State(db, s.open - {t}, s.closed[t := Closed(a, outcome)])
  }

  function Commit(db: SetupTables, a: Admin, h: HouseholdId, founded: bool): SetupTables {
    SetupTables(db.members[a.id := FirstOwner(a, h)], if founded then db.households + [h] else db.households)
  }

  /** No open transaction has an uncommitted row this one would collide with. */
  predicate NoPendingRow(s: State, id: UserId, email: string) {
    forall t | t in s.open && s.open[t].Inserted? :: s.open[t].a.id != id && s.open[t].a.email != email
  }

  predicate NoPendingHousehold(s: State, h: HouseholdId) {
    forall t | t in s.open && (s.open[t].Attached? || s.open[t].Inserted?) && s.open[t].founded :: s.open[t].household != h
  }

  function Next(s: State, e: Event): State {
    match e
    case Start(t, a) => if t in s.open || t in s.closed then s else Keep(s, t, Begun(a))
    case Advance(t) => if t in s.open then Step(s, t, s.open[t]) else s
    case Abort(t) => if t in s.open then Close(s, t, s.open[t].a, s.db, Errored) else s
    case Joined(id, member) =>
      if id in s.db.members || !NoPendingRow(s, id, member.email) then s
      else s.(db := s.db.(members := s.db.members[id := member]))
    case Founded(h) =>
      if h in s.db.households || !NoPendingHousehold(s, h) then s
      else s.(db := s.db.(households := s.db.households + [h]))
  }

  function Step(s: State, t: TxId, tx: Tx): State {
    var a, db := tx.a, s.db;
    match tx
    case Begun(_) => if LockFree(s, t) then Keep(s, t, Locked(a)) else s
    case Locked(_) =>
      if db.members != map[] then Close(s, t, a, db, SetupComplete) else Keep(s, t, NoUserYet(a))
    case NoUserYet(_) =>
      if db.households == [] then Keep(s, t, NoHousehold(a))
      else if |db.households| == 1 then Keep(s, t, Attached(a, db.households[0], false))
      else Close(s, t, a, db, AmbiguousHousehold)
    case NoHousehold(_) =>
      if a.newHousehold in db.households then Close(s, t, a, db, Errored)
      else Keep(s, t, Attached(a, a.newHousehold, true))
    case Attached(_, h, founded) =>
      if Collides(db, a) then Close(s, t, a, db, Errored) else Keep(s, t, Inserted(a, h, founded))
    case Inserted(_, h, founded) => Close(s, t, a, Commit(db, a, h, founded), Provisioned)
  }

  function Run(s: State, es: seq<Event>): State {
    Schedules.Run(Next, s, es)
  }

  function Quiet(db: SetupTables): State {
    State(db, map[], map[])
  }

  function Winners(s: State): set<TxId> {
    set t | t in s.closed && s.closed[t].outcome == Provisioned
  }

  // At most one wins, whoever else writes members and households.

  predicate PastCheck(tx: Tx) {
    !tx.Begun? && !tx.Locked?
  }

  /** One transaction holds the lock; after a win, or with members to begin with, nobody is
      past the check. */
  ghost predicate LockInv(s: State) {
    && (forall t, t' | t in s.open && t' in s.open && t != t' && !s.open[t].Begun? :: s.open[t'].Begun?)
    && (forall t, t' | t in Winners(s) && t' in Winners(s) :: t == t')
    && (Winners(s) != {} ==> s.db.members != map[] && forall t | t in s.open :: !PastCheck(s.open[t]))
    && (forall t | t in s.open :: t !in s.closed)
  }

  lemma CommitLockInv(s: State, t: TxId)
    requires LockInv(s) && t in s.open && s.open[t].Inserted?
    ensures LockInv(Step(s, t, s.open[t]))
  {
    var s' := Step(s, t, s.open[t]);
    assert Winners(s) == {} by {
      if w :| w in Winners(s) {
        assert PastCheck(s.open[t]);
      }
    }
    assert Winners(s') == {t};
    assert s.open[t].a.id in s'.db.members;
  }

  lemma KeepLockInv(s: State, t: TxId, tx: Tx)
    requires LockInv(s) && t !in s.closed
    requires !tx.Begun? ==> LockFree(s, t)
    requires PastCheck(tx) ==> s.db.members == map[] || (t in s.open && PastCheck(s.open[t]))
    ensures LockInv(Keep(s, t, tx))
  {
    assert Winners(Keep(s, t, tx)) == Winners(s);
  }

  lemma CloseLockInv(s: State, t: TxId, a: Admin, outcome: Outcome)
    requires LockInv(s) && t in s.open && outcome != Provisioned
    ensures LockInv(Close(s, t, a, s.db, outcome))
  {
    assert Winners(Close(s, t, a, s.db, outcome)) == Winners(s);
  }

  lemma StepLockInv(s: State, t: TxId)
    requires LockInv(s) && t in s.open
    ensures LockInv(Step(s, t, s.open[t]))
  {
    var tx, s' := s.open[t], Step(s, t, s.open[t]);
    hide Collides;
    if tx.Inserted? {
      CommitLockInv(s, t);
    } else if t in s'.open {
      if s' != s {
        KeepLockInv(s, t, s'.open[t]);
      }
    } else {
      CloseLockInv(s, t, tx.a, s'.closed[t].outcome);
    }
  }

  lemma NextLockInv(s: State, e: Event)
    requires LockInv(s)
    ensures LockInv(Next(s, e))
  {
    hide Step;
    if e.Advance? && e.t in s.open {
      StepLockInv(s, e.t);
    } else if e.Start? && Next(s, e) != s {
      KeepLockInv(s, e.t, Begun(e.a));
    } else if e.Abort? && e.t in s.open {
      CloseLockInv(s, e.t, s.open[e.t].a, Errored);
    } else if e.Joined? || e.Founded? {
      assert Winners(Next(s, e)) == Winners(s);
    }
  }

  lemma {:induction false} RunLockInv(db: SetupTables, es: seq<Event>)
    ensures LockInv(Run(Quiet(db), es))
  {
    if es == [] {
      assert Winners(Quiet(db)) == {};
    } else {
      hide Next, LockInv;
      var n := |es| - 1;
      RunLockInv(db, es[..n]);
      NextLockInv(Run(Quiet(db), es[..n]), es[n]);
    }
  }

  /** Main result: two submissions never both create an admin, even while another application
      adds members and households of its own. */
  lemma AtMostOneWinner(db: SetupTables, es: seq<Event>, t: TxId, t': TxId)
    requires var s := Run(Quiet(db), es); t in Winners(s) && t' in Winners(s)
    ensures t == t'
  {
    hide Run, Winners;
    RunLockInv(db, es);
  }

  // With nobody else writing, how every submission ends.

  predicate Own(e: Event) {
    e.Start? || e.Advance? || e.Abort?
  }

  predicate AllOwn(es: seq<Event>) {
    forall e | e in es :: Own(e)
  }

  /** The household the admin of this submission joins. */
  function HomeFor(h0: seq<HouseholdId>, a: Admin): HouseholdId {
    if h0 == [] then a.newHousehold else h0[0]
  }

  predicate PhaseFits(tx: Tx, h0: seq<HouseholdId>) {
    match tx
    case NoHousehold(_) => h0 == []
    case Attached(a, h, founded) => |h0| < 2 && h == HomeFor(h0, a) && (founded <==> h0 == [])
    case Inserted(a, h, founded) => |h0| < 2 && h == HomeFor(h0, a) && (founded <==> h0 == [])
    case _ => true
  }

  /** The committed tables, before and after a win. */
  ghost predicate TablesFit(s: State, h0: seq<HouseholdId>) {
    && (Winners(s) == {} ==> s.db == SetupTables(map[], h0))
    && (forall t | t in Winners(s) :: |h0| < 2 && s.db == AfterWin(h0, s.closed[t].a))
  }

  function AfterWin(h0: seq<HouseholdId>, a: Admin): SetupTables {
    SetupTables(map[a.id := FirstOwner(a, HomeFor(h0, a))], [HomeFor(h0, a)])
  }

  ghost predicate OwnInv(s: State, h0: seq<HouseholdId>, aborts: set<TxId>) {
    && LockInv(s)
    && TablesFit(s, h0)
    && (forall t | t in s.open :: PhaseFits(s.open[t], h0))
    && (forall t | t in s.closed && t !in aborts ::
          && s.closed[t].outcome != Errored
          && (s.closed[t].outcome == AmbiguousHousehold <==> |h0| > 1)
          && (s.closed[t].outcome == SetupComplete ==> Winners(s) != {}))
  }

  lemma CommitOwnInv(s: State, t: TxId, h0: seq<HouseholdId>, aborts: set<TxId>)
    requires OwnInv(s, h0, aborts) && t in s.open && s.open[t].Inserted?
    ensures OwnInv(Step(s, t, s.open[t]), h0, aborts)
  {
    var tx, s' := s.open[t], Step(s, t, s.open[t]);
    CommitLockInv(s, t);
    NoWinnerYet(s, t);
    assert PhaseFits(tx, h0);
    assert Winners(s') == {t} by {
      assert s'.closed == s.closed[t := Closed(tx.a, Provisioned)];
    }
    assert s'.db == AfterWin(h0, tx.a);
    hide LockInv, PhaseFits;
  }

  /** A step that moves a transaction on, or ends it without a win, leaves the tables alone. */
  lemma OtherSteps(s: State, t: TxId, h0: seq<HouseholdId>)
    requires LockInv(s) && TablesFit(s, h0) && t in s.open && !s.open[t].Inserted? && PhaseFits(s.open[t], h0)
    ensures var s' := Step(s, t, s.open[t]);
      && s'.db == s.db
      && (t in s'.open ==> s' == Keep(s, t, s'.open[t]) && PhaseFits(s'.open[t], h0))
      && (t !in s'.open ==>
            && t in s'.closed && s' == Close(s, t, s.open[t].a, s.db, s'.closed[t].outcome)
            && s'.closed[t].outcome != Provisioned && s'.closed[t].outcome != Errored
            && (s'.closed[t].outcome == AmbiguousHousehold <==> |h0| > 1)
            && (s'.closed[t].outcome == SetupComplete ==> Winners(s) != {}))
  {
    if PastCheck(s.open[t]) {
      NoWinnerYet(s, t);
    }
    hide LockInv;
    assert s.open[t := s.open[t]] == s.open;
  }

  lemma StepOwnInv(s: State, t: TxId, h0: seq<HouseholdId>, aborts: set<TxId>)
    requires OwnInv(s, h0, aborts) && t in s.open
    ensures OwnInv(Step(s, t, s.open[t]), h0, aborts)
  {
    var s' := Step(s, t, s.open[t]);
    if s.open[t].Inserted? {
      CommitOwnInv(s, t, h0, aborts);
    } else {
      StepLockInv(s, t);
      OtherSteps(s, t, h0);
      SameWinners(s, t);
      hide LockInv, PhaseFits, Step, Winners;
    }
  }

  lemma SameWinners(s: State, t: TxId)
    requires LockInv(s) && t in s.open && !s.open[t].Inserted?
    ensures Winners(Step(s, t, s.open[t])) == Winners(s)
  {
    hide Collides;
  }

  lemma NoWinnerYet(s: State, t: TxId)
    requires LockInv(s) && t in s.open && PastCheck(s.open[t])
    ensures Winners(s) == {}
  {}

  lemma NextOwnInv(s: State, e: Event, h0: seq<HouseholdId>, aborts: set<TxId>)
    requires OwnInv(s, h0, aborts) && Own(e) && (e.Abort? ==> e.t in aborts)
    ensures OwnInv(Next(s, e), h0, aborts)
  {
    NextLockInv(s, e);
    hide Step, LockInv, PhaseFits;
    var s' := Next(s, e);
    if e.Advance? {
      if e.t in s.open {
        StepOwnInv(s, e.t, h0, aborts);
      }
    } else {
      if e.Start? {
        BegunFits(e.a, h0);
      }
      QuietlyStarts(s, e);
    }
  }

  lemma BegunFits(a: Admin, h0: seq<HouseholdId>)
    ensures PhaseFits(Begun(a), h0)
  {}

  lemma QuietlyStarts(s: State, e: Event)
    requires LockInv(s) && (e.Start? || e.Abort?)
    ensures Winners(Next(s, e)) == Winners(s)
  {}

  function Aborts(es: seq<Event>): set<TxId> {
    set e | e in es && e.Abort? :: e.t
  }

  lemma {:induction false} RunOwnInv(h0: seq<HouseholdId>, es: seq<Event>, n: nat)
    requires AllOwn(es) && n <= |es|
    ensures OwnInv(Run(Quiet(SetupTables(map[], h0)), es[..n]), h0, Aborts(es))
  {
    if n == 0 {
      assert Winners(Quiet(SetupTables(map[], h0))) == {};
    } else {
      hide Next, OwnInv;
      RunOwnInv(h0, es, n - 1);
      assert es[..n][..n - 1] == es[..n - 1];
      assert es[n - 1] in es;
      NextOwnInv(Run(Quiet(SetupTables(map[], h0)), es[..n - 1]), es[n - 1], h0, Aborts(es));
    }
  }

  /** Main result: on an empty member table every submission that is not cut off wins, reports
      that setup is complete because another one won, or reports that there are several
      households; the tables are those of the winner running alone, or as they were. */
  lemma FirstRunOutcome(h0: seq<HouseholdId>, es: seq<Event>, t: TxId)
    requires AllOwn(es)
    requires t in Run(Quiet(SetupTables(map[], h0)), es).closed
    ensures var s := Run(Quiet(SetupTables(map[], h0)), es);
      && (t in Winners(s) ==>
            && |h0| < 2 && Winners(s) == {t}
            && (s.db, Provisioned) == SetupEffect(SetupTables(map[], h0), s.closed[t].a))
      && (Winners(s) == {} ==> s.db == SetupTables(map[], h0))
      && (Abort(t) !in es && t !in Winners(s) ==>
            s.closed[t].outcome == if |h0| > 1 then AmbiguousHousehold else SetupComplete)
      && (Abort(t) !in es && |h0| < 2 ==> Winners(s) != {})
  {
    hide Run;
    RunOwnInv(h0, es, |es|);
    assert es[..|es|] == es;
    var s := Run(Quiet(SetupTables(map[], h0)), es);
    if t in Winners(s) {
      assert Winners(s) == {t};
    }
    if Abort(t) !in es {
      assert t !in Aborts(es);
    }
  }

  // A submission alone.

  /** t is the only transaction there has been. */
  function Alone(db: SetupTables, t: TxId, tx: Tx): State {
    State(db, map[t := tx], map[])
  }

  function Ended(db: SetupTables, t: TxId, a: Admin, outcome: Outcome): State {
    State(db, map[], map[t := Closed(a, outcome)])
  }

  lemma AloneSteps(db: SetupTables, t: TxId, tx: Tx)
    ensures var s := Alone(db, t, tx);
      && LockFree(s, t)
      && (forall tx' :: Keep(s, t, tx') == Alone(db, t, tx'))
      && (forall db', a, outcome :: Close(s, t, a, db', outcome) == Ended(db', t, a, outcome))
  {
    assert forall tx' :: map[t := tx][t := tx'] == map[t := tx'];
    assert map[t := tx] - {t} == map[];
  }

  lemma SoloTail(db: SetupTables, t: TxId, a: Admin, h: HouseholdId, founded: bool)
    requires db.members == map[]
    ensures Next(Alone(db, t, Attached(a, h, founded)), Advance(t)) == Alone(db, t, Inserted(a, h, founded))
    ensures Next(Alone(db, t, Inserted(a, h, founded)), Advance(t)) == Ended(Commit(db, a, h, founded), t, a, Provisioned)
  {
    AloneSteps(db, t, Attached(a, h, founded));
    AloneSteps(db, t, Inserted(a, h, founded));
  }

  lemma SoloHead(db: SetupTables, t: TxId, a: Admin)
    ensures Next(Alone(db, t, Begun(a)), Advance(t)) == Alone(db, t, Locked(a))
    ensures Next(Alone(db, t, Locked(a)), Advance(t))
      == if db.members != map[] then Ended(db, t, a, SetupComplete) else Alone(db, t, NoUserYet(a))
    ensures Next(Alone(db, t, NoUserYet(a)), Advance(t))
      == if db.households == [] then Alone(db, t, NoHousehold(a))
        else if |db.households| == 1 then Alone(db, t, Attached(a, db.households[0], false))
        else Ended(db, t, a, AmbiguousHousehold)
    ensures db.households == [] ==>
      Next(Alone(db, t, NoHousehold(a)), Advance(t)) == Alone(db, t, Attached(a, a.newHousehold, true))
  {
    AloneSteps(db, t, Begun(a));
    AloneSteps(db, t, Locked(a));
    AloneSteps(db, t, NoUserYet(a));
    AloneSteps(db, t, NoHousehold(a));
  }

  lemma EndedStays(db: SetupTables, t: TxId, a: Admin, outcome: Outcome)
    ensures Next(Ended(db, t, a, outcome), Advance(t)) == Ended(db, t, a, outcome)
  {}

  /** Alone, a submission finishes within six steps and does what CreateFirstAdmin does. */
  lemma SoloSubmission(db: SetupTables, t: TxId, a: Admin)
    ensures var (db', outcome) := SetupEffect(db, a);
      Run(Quiet(db), [Start(t, a)] + Schedules.Repeated(Advance(t), 6)) == Ended(db', t, a, outcome)
  {
    var s0 := Alone(db, t, Begun(a));
    assert Keep(Quiet(db), t, Begun(a)) == s0;
    Schedules.RunStarting(Next, Quiet(db), Start(t, a), Advance(t), 6);
    var (db', outcome) := SetupEffect(db, a);
    EndedStays(db', t, a, outcome);
    SoloHead(db, t, a);
    if db.members == map[] && |db.households| < 2 {
      var h, founded := HomeFor(db.households, a), db.households == [];
      SoloTail(db, t, a, h, founded);
      assert Commit(db, a, h, founded) == db';
    }
    assert Next(Quiet(db), Start(t, a)) == s0;
    hide Next, Alone, Ended;
    Schedules.TimesStep(Next, s0, Advance(t), 0);
    Schedules.TimesStep(Next, s0, Advance(t), 1);
    Schedules.TimesStep(Next, s0, Advance(t), 2);
    Schedules.TimesStep(Next, s0, Advance(t), 3);
    Schedules.TimesStep(Next, s0, Advance(t), 4);
    Schedules.TimesStep(Next, s0, Advance(t), 5);
  }

  // Who the first admin is.

  /** Main result: a submission on its own answers by the tables it finds, and the one member it
      then creates is an active owner under its email, in the only household there is. */
  lemma FirstAdminIsOwner(db: SetupTables, a: Admin)
    ensures var (after, outcome) := SetupEffect(db, a);
      && outcome == (if db.members != map[] then SetupComplete
                     else if |db.households| > 1 then AmbiguousHousehold else Provisioned)
      && (outcome != Provisioned ==> after == db)
      && (outcome == Provisioned ==>
            && after.members.Keys == ActiveOwners(after.members) == {a.id} && after.members[a.id].email == a.email
            && after.households == [after.members[a.id].household]
            && after.households == if db.households == [] then [a.newHousehold] else db.households)
  {}

  /** A winner's row: an active owner under the winner's email, in a household there is. */
  predicate IsAdmin(db: SetupTables, a: Admin) {
    && a.id in ActiveOwners(db.members) && db.members[a.id].email == a.email
    && db.members[a.id].household in db.households
  }

  /** Winners have their rows, and whoever is attached to a household will find it there. */
  ghost predicate AdminInv(s: State) {
    && (forall t | t in Winners(s) :: IsAdmin(s.db, s.closed[t].a))
    && (forall t | t in s.open && (s.open[t].Attached? || s.open[t].Inserted?) && !s.open[t].founded ::
          s.open[t].household in s.db.households)
    && (forall t | t in s.open && s.open[t].Inserted? :: s.open[t].a.id !in s.db.members)
  }

  predicate Larger(db: SetupTables, after: SetupTables) {
    && (forall id | id in db.members :: id in after.members && after.members[id] == db.members[id])
    && (forall h | h in db.households :: h in after.households)
  }

  lemma AdminLater(db: SetupTables, after: SetupTables, a: Admin)
    requires IsAdmin(db, a) && Larger(db, after)
    ensures IsAdmin(after, a)
  {}

  lemma CommitAdmin(s: State, t: TxId)
    requires LockInv(s) && AdminInv(s) && t in s.open && s.open[t].Inserted?
    ensures AdminInv(Step(s, t, s.open[t]))
  {
    var s', tx := Step(s, t, s.open[t]), s.open[t];
    NoWinnerYet(s, t);
    assert Winners(s') == {t} by {
      assert s'.closed == s.closed[t := Closed(tx.a, Provisioned)];
    }
    assert IsAdmin(s'.db, tx.a);
    hide IsAdmin;
  }

  lemma StepAdmin(s: State, t: TxId)
    requires LockInv(s) && AdminInv(s) && t in s.open
    ensures AdminInv(Step(s, t, s.open[t]))
  {
    if s.open[t].Inserted? {
      CommitAdmin(s, t);
    } else {
      SameWinners(s, t);
      SameClosed(s, t);
      hide Winners, LockInv, IsAdmin, EmailTaken;
    }
  }

  lemma SameClosed(s: State, t: TxId)
    requires LockInv(s) && t in s.open && !s.open[t].Inserted?
    ensures var s' := Step(s, t, s.open[t]);
      s'.db == s.db && forall w | w in Winners(s) :: w in s'.closed && s'.closed[w] == s.closed[w]
  {
    hide Collides, LockFree;
  }

  lemma NextAdmin(s: State, e: Event)
    requires LockInv(s) && AdminInv(s)
    ensures AdminInv(Next(s, e))
  {
    hide Step, AdminInv, LockInv, IsAdmin;
    if e.Advance? {
      if e.t in s.open {
        StepAdmin(s, e.t);
      }
    } else if e.Start? || e.Abort? {
      QuietlyStarts(s, e);
      OwnAdmin(s, e);
    } else {
      OutsideAdmin(s, e);
    }
  }

  lemma OwnAdmin(s: State, e: Event)
    requires LockInv(s) && AdminInv(s) && (e.Start? || e.Abort?) && Winners(Next(s, e)) == Winners(s)
    ensures AdminInv(Next(s, e))
  {
    var s' := Next(s, e);
    assert forall t | t in Winners(s) :: s'.closed[t] == s.closed[t];
    hide Step, IsAdmin, Winners, LockInv;
  }

  lemma OutsideAdmin(s: State, e: Event)
    requires AdminInv(s) && (e.Joined? || e.Founded?)
    ensures AdminInv(Next(s, e))
  {
    var s' := Next(s, e);
    assert Larger(s.db, s'.db) && s'.closed == s.closed && s'.open == s.open;
    forall t | t in Winners(s)
      ensures IsAdmin(s'.db, s.closed[t].a)
    {
      AdminLater(s.db, s'.db, s.closed[t].a);
    }
    assert Winners(s') == Winners(s);
    hide Step, IsAdmin, Winners, Larger;
  }

  lemma {:induction false} RunAdmin(db: SetupTables, es: seq<Event>)
    ensures AdminInv(Run(Quiet(db), es))
  {
    if es == [] {
      assert Winners(Quiet(db)) == {};
    } else {
      hide Next, LockInv, AdminInv;
      var n := |es| - 1;
      RunAdmin(db, es[..n]);
      RunLockInv(db, es[..n]);
      NextAdmin(Run(Quiet(db), es[..n]), es[n]);
    }
  }

  /** Main result: under every schedule, other applications' rows included, whoever won is from
      then on an active owner under the email submitted, in a household that exists. */
  lemma WinnerIsAdmin(db: SetupTables, es: seq<Event>, t: TxId)
    requires t in Winners(Run(Quiet(db), es))
    ensures var s := Run(Quiet(db), es); var a := s.closed[t].a;
      && a.id in s.db.members && s.db.members[a.id].role == Owner && s.db.members[a.id].active
      && s.db.members[a.id].email == a.email && s.db.members[a.id].household in s.db.households
  {
    hide Run, Winners;
    RunAdmin(db, es);
  }
}
