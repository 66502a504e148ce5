/** The member and profile tables, and what each operation on them does when it runs alone. */
module IdentityTables {
  import opened Common

  type UserId = nat
  type HouseholdId = nat

  datatype Role = Owner | Adult | Child

  datatype Color = Indigo | Steel | Teal | Peri

  datatype Member = Member(household: HouseholdId, email: string, role: Role, active: bool)

  datatype Tables = Tables(members: map<UserId, Member>, profiles: map<UserId, Color>)

  datatype Op =
    | SetActive(id: UserId, active: bool)
    | SetRole(id: UserId, role: Role)
    | Create(id: UserId, household: HouseholdId, email: string, newRole: Role, color: Color)
    | EnsureProfile(id: UserId)

  datatype Outcome = Done | UserNotFound | LastActiveAdmin | DuplicateEmail | Failed

  /** Every profile belongs to a member, as the foreign key demands. */
  predicate ValidTables(db: Tables) {
    db.profiles.Keys <= db.members.Keys
  }

  function ActiveOwners(members: map<UserId, Member>): set<UserId> {
    set id | id in members && members[id].role.Owner? && members[id].active
  }

  predicate EmailTaken(members: map<UserId, Member>, email: string) {
    exists id | id in members :: members[id].email == email
  }

  function EmailLengths(members: map<UserId, Member>): set<nat> {
    set id | id in members :: |members[id].email|
  }

  /** There is always room for another member. */
  lemma FreshRow(members: map<UserId, Member>) returns (x: UserId, email: string)
    ensures x !in members && !EmailTaken(members, email)
  {
    x := AboveAll(members.Keys);
    var lengths := EmailLengths(members);
    var n := AboveAll(lengths);
    email := seq(n, _ => 'e');
    forall id | id in members
      ensures members[id].email != email
    {
      assert |members[id].email| in lengths;
    }
  }

  /** The two changes that can take a member out of the active owners. */
  predicate Guarded(op: Op) {
    (op.SetActive? && !op.active) || (op.SetRole? && !op.role.Owner?)
  }

  predicate Patches(op: Op) {
    op.SetActive? || op.SetRole?
  }

  function Patched(op: Op, m: Member): Member
    requires Patches(op)
  {
    if op.SetActive? then m.(active := op.active) else m.(role := op.role)
  }

  function NewMember(op: Op): Member
    requires op.Create?
  {
    Member(op.household, op.email, op.newRole, true)
  }

  // Profile colours.

  const PALETTE: seq<Color> := [Indigo, Steel, Teal, Peri]

  /** The profiles of a household that wear a colour. */
  function Wearers(db: Tables, h: HouseholdId, c: Color): set<UserId> {
    set id | id in db.profiles && db.profiles[id] == c && id in db.members && db.members[id].household == h
  }

  function Used(db: Tables, h: HouseholdId, c: Color): nat {
    |Wearers(db, h, c)|
  }

  /** The least used colour, the first of them in palette order. */
  function NextColor(used: Color -> nat): Color {
    Lesser(used, Lesser(used, Lesser(used, Indigo, Steel), Teal), Peri)
  }

  function Lesser(used: Color -> nat, best: Color, c: Color): Color {
    if used(c) < used(best) then c else best
  }

  function NextFor(db: Tables, h: HouseholdId): Color {
    NextColor(c => Used(db, h, c))
  }

  lemma NextColorIsLeast(used: Color -> nat, c: Color)
    ensures used(NextColor(used)) <= used(c)
  {}

  /** An unused colour is handed out whenever there is one, and always in palette order. */
  lemma NextColorPrefersUnused(used: Color -> nat, i: nat, j: nat)
    requires i < |PALETTE| && j < |PALETTE| && NextColor(used) == PALETTE[i]
    ensures used(PALETTE[j]) == 0 ==> used(PALETTE[i]) == 0 && i <= j
  {
    NextColorIsLeast(used, PALETTE[j]);
  }

  /** The colour handed out is the first in palette order that none is used less than. */
  lemma FirstLeast(used: Color -> nat) returns (i: nat)
    ensures i < 4 && NextColor(used) == [Indigo, Steel, Teal, Peri][i]
    ensures forall j | 0 <= j < i :: used([Indigo, Steel, Teal, Peri][j]) > used(NextColor(used))
    ensures forall j | i < j < 4 :: used([Indigo, Steel, Teal, Peri][j]) >= used(NextColor(used))
  {
    i := match NextColor(used) case Indigo => 0 case Steel => 1 case Teal => 2 case Peri => 3;
  }

  /** The tables and the answer when the operation runs with nothing else going on. */
  function Effect(db: Tables, op: Op): (Tables, Outcome) {
    match op
    case Create(id, _, email, _, color) =>
      if id in db.members then (db, Failed)
      else if EmailTaken(db.members, email) then (db, DuplicateEmail)
      else (Tables(db.members[id := NewMember(op)], db.profiles[id := color]), Done)
    case EnsureProfile(id) =>
      if id !in db.members then (db, UserNotFound)
      else if id in db.profiles || !db.members[id].active then (db, Done)
      else (db.(profiles := db.profiles[id := NextFor(db, db.members[id].household)]), Done)
    case _ =>
      if Guarded(op) && ActiveOwners(db.members) == {op.id} then (db, LastActiveAdmin)
      else if op.id !in db.members then (db, UserNotFound)
      else (db.(members := db.members[op.id := Patched(op, db.members[op.id])]), Done)
  }
}
