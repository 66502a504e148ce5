/** The account API key table, and what each operation on it does when it runs alone. */
module ApiKeys {
  import opened Common

  type KeyId = nat
  type Time = int

  /** A key is current until it is superseded, which gives it an expiry, or revoked. */
  datatype Key = Key(expiresAt: Option<Time>, revokedAt: Option<Time>) {
    predicate Current() {
      expiresAt.None? && revokedAt.None?
    }
  }

  const NEW_KEY := Key(None, None)

  type Rows = map<KeyId, Key>

  datatype Op =
    | Create(id: KeyId)
    | Rotate(incumbent: Option<KeyId>, expiresAt: Time, next: KeyId)
    | Revoke(id: KeyId, revokedAt: Time)

  datatype Outcome = Done | NotFound | KeyExists | Failed | Aborted

  function CurrentKeys(rows: Rows): set<KeyId> {
    set id | id in rows && rows[id].Current()
  }

  /** At most one current key, as the partial unique index demands. */
  predicate Indexed(rows: Rows) {
    forall i, j | i in rows && j in rows && rows[i].Current() && rows[j].Current() :: i == j
  }

  predicate Unrevoked(rows: Rows, id: KeyId) {
    id in rows && rows[id].revokedAt.None?
  }

  function Supersede(rows: Rows, incumbent: Option<KeyId>, expiresAt: Time): Rows
    requires incumbent.Some? ==> incumbent.value in rows
  {
    if incumbent.None? then rows
    else rows[incumbent.value := rows[incumbent.value].(expiresAt := Some(expiresAt))]
  }

  /** The rows and the answer when the operation runs with nothing else going on. */
  function Effect(rows: Rows, op: Op): (Rows, Outcome) {
    match op
    case Create(id) =>
      if id in rows then (rows, Failed)
      else if CurrentKeys(rows) != {} then (rows, KeyExists)
      else (rows[id := NEW_KEY], Done)
    case Rotate(incumbent, expiresAt, next) =>
      if incumbent.Some? && !Unrevoked(rows, incumbent.value) then (rows, NotFound)
      else if next in rows || CurrentKeys(Supersede(rows, incumbent, expiresAt)) != {} then (rows, Failed)
      else (Supersede(rows, incumbent, expiresAt)[next := NEW_KEY], Done)
    case Revoke(id, revokedAt) =>
      if Unrevoked(rows, id) then (rows[id := rows[id].(revokedAt := Some(revokedAt))], Done) else (rows, NotFound)
  }

  class Repository {
    var rows: Rows

    constructor (rows: Rows)
      ensures this.rows == rows
    {
      this.rows := rows;
    }

    /** Insert a new key, subject to the primary key and the index on current keys. */
    method Insert(id: KeyId) returns (outcome: Outcome)
      modifies this
      ensures outcome == if id in old(rows) then Failed else if CurrentKeys(old(rows)) != {} then KeyExists else Done
      ensures rows == if outcome == Done then old(rows)[id := NEW_KEY] else old(rows)
    {
      if id in rows {
        return Failed;
      }
      if other :| other in rows && rows[other].Current() {
        assert other in CurrentKeys(rows);
        return KeyExists;
      }
      rows := rows[id := NEW_KEY];
      outcome := Done;
    }

    method Create(id: KeyId) returns (outcome: Outcome)
      modifies this
      ensures (rows, outcome) == Effect(old(rows), Op.Create(id))
    {
      outcome := Insert(id);
    }

    /** Supersede the incumbent, insert its replacement, and undo the first if the second fails. */
    method Rotate(incumbent: Option<KeyId>, expiresAt: Time, next: KeyId) returns (outcome: Outcome)
      modifies this
      ensures (rows, outcome) == Effect(old(rows), Op.Rotate(incumbent, expiresAt, next))
    {
      var saved := rows;
      if incumbent.Some? {
        if incumbent.value !in rows || rows[incumbent.value].revokedAt.Some? {
          return NotFound;
        }
        rows := rows[incumbent.value := rows[incumbent.value].(expiresAt := Some(expiresAt))];
      }
      var inserted := Insert(next);
      if inserted != Done {
        rows := saved;
        return Failed;
      }
      outcome := Done;
    }

    method Revoke(id: KeyId, revokedAt: Time) returns (outcome: Outcome)
      modifies this
      ensures (rows, outcome) == Effect(old(rows), Op.Revoke(id, revokedAt))
    {
      if id !in rows || rows[id].revokedAt.Some? {
        return NotFound;
      }
      rows := rows[id := rows[id].(revokedAt := Some(revokedAt))];
      outcome := Done;
    }
  }

  // What one operation does to the table.

  /** A rotation that commits leaves its replacement as the one current key; one that does not
      leaves every row alone. */
  lemma RotationIsAllOrNothing(rows: Rows, incumbent: Option<KeyId>, expiresAt: Time, next: KeyId)
    ensures var (rows', outcome) := Effect(rows, Rotate(incumbent, expiresAt, next));
      if outcome == Done then
        && next !in rows && CurrentKeys(rows') == {next}
        && rows'.Keys == rows.Keys + {next}
        && (forall id | id in rows && Some(id) != incumbent :: rows'[id] == rows[id])
        && (incumbent.Some? ==> rows'[incumbent.value] == Key(Some(expiresAt), None))
      else rows' == rows
  {
    var (rows', outcome) := Effect(rows, Rotate(incumbent, expiresAt, next));
    if outcome == Done {
      assert forall id | id in rows' && rows'[id].Current() && id != next ::
        id in CurrentKeys(Supersede(rows, incumbent, expiresAt));
    }
  }

  /** The current key can always be rotated to a fresh one. */
  lemma CurrentKeyRotates(rows: Rows, incumbent: KeyId, expiresAt: Time, next: KeyId)
    requires Indexed(rows) && incumbent in CurrentKeys(rows)
    ensures Effect(rows, Rotate(Some(incumbent), expiresAt, next)).1 == Done <==> next !in rows
  {}

  lemma EffectKeepsIndex(rows: Rows, op: Op)
    requires Indexed(rows)
    ensures Indexed(Effect(rows, op).0)
  {
    var (rows', outcome) := Effect(rows, op);
    if op.Rotate? && outcome == Done {
      RotationIsAllOrNothing(rows, op.incumbent, op.expiresAt, op.next);
      forall i, j | i in rows' && j in rows' && rows'[i].Current() && rows'[j].Current()
        ensures i == j
      {
        assert i in CurrentKeys(rows') && j in CurrentKeys(rows');
      }
    } else if op.Create? && outcome == Done {
      forall i | i in rows
        ensures !rows[i].Current()
      {
        assert i !in CurrentKeys(rows);
      }
    }
  }

  /** Rows stay, and a revocation keeps its time. */
  predicate RevocationsKept(before: Rows, after: Rows) {
    forall id | id in before :: id in after && (before[id].revokedAt.Some? ==> after[id].revokedAt == before[id].revokedAt)
  }

  lemma EffectKeepsRevocations(rows: Rows, op: Op)
    ensures RevocationsKept(rows, Effect(rows, op).0)
  {}

  /** A created key is current; a second current one, or one under a known id, is refused. */
  lemma CreateStores(rows: Rows, id: KeyId)
    ensures var (rows', outcome) := Effect(rows, Create(id));
      && outcome == (if id in rows then Failed
                     else if exists other | other in rows :: rows[other] == Key(None, None) then KeyExists else Done)
      && rows' == if outcome == Done then rows[id := Key(None, None)] else rows
  {
    if other :| other in rows && rows[other] == Key(None, None) {
      assert other in CurrentKeys(rows);
    }
    assert forall other | other in CurrentKeys(rows) :: rows[other] == Key(None, None);
  }

  /** When a rotation commits, is refused for its incumbent, or fails on its insert. */
  lemma RotateAnswers(rows: Rows, incumbent: Option<KeyId>, expiresAt: Time, next: KeyId)
    ensures Effect(rows, Rotate(incumbent, expiresAt, next)).1
      == if incumbent.Some? && (incumbent.value !in rows || rows[incumbent.value].revokedAt.Some?) then NotFound
         else if next in rows || exists id | id in rows && Some(id) != incumbent :: rows[id] == Key(None, None) then Failed
         else Done
  {
    if incumbent.None? || Unrevoked(rows, incumbent.value) {
      var after := Supersede(rows, incumbent, expiresAt);
      if id :| id in CurrentKeys(after) {
        assert Some(id) != incumbent && rows[id] == Key(None, None);
      }
      if id :| id in rows && Some(id) != incumbent && rows[id] == Key(None, None) {
        assert id in CurrentKeys(after);
      }
    }
  }

  /** An unrevoked key is stamped with the time given and keeps its expiry; any other is not found. */
  lemma RevokeStamps(rows: Rows, id: KeyId, revokedAt: Time)
    ensures var (rows', outcome) := Effect(rows, Revoke(id, revokedAt));
      if id in rows && rows[id].revokedAt.None?
      then outcome == Done && rows' == rows[id := Key(rows[id].expiresAt, Some(revokedAt))]
      else outcome == NotFound && rows' == rows
  {}

  /** A rotation naming a key that is superseded already commits exactly when that key was
      not revoked and there is no current key at all; it then moves the first expiry. */
  lemma StaleRotationIff(rows: Rows, incumbent: KeyId, expiresAt: Time, next: KeyId)
    requires incumbent in rows && rows[incumbent].expiresAt.Some? && next !in rows
    ensures var (rows', outcome) := Effect(rows, Rotate(Some(incumbent), expiresAt, next));
      && (outcome == Done <==> rows[incumbent].revokedAt.None? && CurrentKeys(rows) == {})
      && rows'[incumbent].expiresAt == if outcome == Done then Some(expiresAt) else rows[incumbent].expiresAt
  {
    if rows[incumbent].revokedAt.None? {
      assert CurrentKeys(Supersede(rows, Some(incumbent), expiresAt)) == CurrentKeys(rows);
    }
  }
}
