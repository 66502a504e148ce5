/** The member and profile repository, one call at a time, over the two tables it writes. */
module UserRepository {
  import opened IdentityTables

  /** True when id is the one and only active admin. */
  predicate WouldRemoveLastActiveAdmin(activeAdminIDs: seq<UserId>, id: UserId) {
    |activeAdminIDs| == 1 && activeAdminIDs[0] == id
  }

  /** Counts the colours in use, then takes the least used one. */
  method PickColor(existing: seq<Color>) returns (best: Color)
    ensures best == NextColor(c => multiset(existing)[c])
  {
    var counts: map<Color, nat> := map[Indigo := 0, Steel := 0, Teal := 0, Peri := 0];
    forall c: Color
      ensures c in counts && counts[c] == multiset(existing[..0])[c]
    {
      assert existing[..0] == [];
      match c case Indigo => case Steel => case Teal => case Peri =>
    }
    for i := 0 to |existing|
      invariant forall c: Color :: c in counts && counts[c] == multiset(existing[..i])[c]
    {
      var c := existing[i];
      assert existing[..i + 1] == existing[..i] + [c];
      counts := counts[c := counts[c] + 1];
    }
    assert existing[..|existing|] == existing;
    ghost var used := (c: Color) => multiset(existing)[c];
    best := PALETTE[0];
    for i := 0 to |PALETTE|
      invariant i <= 1 ==> best == Indigo
      invariant i == 2 ==> best == Lesser(used, Indigo, Steel)
      invariant i == 3 ==> best == Lesser(used, Lesser(used, Indigo, Steel), Teal)
      invariant i == 4 ==> best == NextColor(used)
    {
      if counts[PALETTE[i]] < counts[best] {
        best := PALETTE[i];
      }
    }
  }

  class Repository {
    var members: map<UserId, Member>
    var profiles: map<UserId, Color>

    ghost function Db(): Tables
      reads this
    {
      Tables(members, profiles)
    }

    constructor (members: map<UserId, Member>, profiles: map<UserId, Color>)
      ensures Db() == Tables(members, profiles)
    {
      this.members := members;
      this.profiles := profiles;
    }

    method HasAnyUser() returns (any: bool)
      ensures any <==> members != map[]
    {
      any := |members| > 0;
    }

    /** Scans the active owner rows into a list, in whatever order they come. */
    method LockActiveAdminIDs() returns (ids: seq<UserId>)
      ensures |ids| == |ActiveOwners(members)| && forall id :: id in ids <==> id in ActiveOwners(members)
    {
      ids := [];
      var rows := ActiveOwners(members);
      while rows != {}
        invariant rows <= ActiveOwners(members)
        invariant |ids| + |rows| == |ActiveOwners(members)|
        invariant forall id :: id in ids <==> id in ActiveOwners(members) - rows
        decreases |rows|
      {
        var id :| id in rows;
        ids := ids + [id];
        rows := rows - {id};
      }
    }

    /** Update unless that would leave no active owner. */
    method LastAdminGuardedUpdate(op: Op) returns (outcome: Outcome)
      requires Guarded(op)
      modifies this
      ensures (Db(), outcome) == Effect(old(Db()), op)
    {
      var activeAdminIDs := LockActiveAdminIDs();
      SingletonById(ActiveOwners(members), activeAdminIDs, op.id);
      if WouldRemoveLastActiveAdmin(activeAdminIDs, op.id) {
        return LastActiveAdmin;
      }
      outcome := ExecUserUpdate(op);
    }

    method ExecUserUpdate(op: Op) returns (outcome: Outcome)
      requires Patches(op)
      modifies this
      ensures profiles == old(profiles)
      ensures if op.id in old(members)
        then outcome == Done && members == old(members)[op.id := Patched(op, old(members)[op.id])]
        else outcome == UserNotFound && members == old(members)
    {
      if op.id !in members {
        return UserNotFound;
      }
      members := members[op.id := Patched(op, members[op.id])];
      outcome := Done;
    }

    method SetActive(id: UserId, active: bool) returns (outcome: Outcome)
      modifies this
      ensures (Db(), outcome) == Effect(old(Db()), Op.SetActive(id, active))
    {
      if active {
        outcome := ExecUserUpdate(Op.SetActive(id, true));
      } else {
        outcome := LastAdminGuardedUpdate(Op.SetActive(id, false));
      }
    }

    method SetRole(id: UserId, role: Role) returns (outcome: Outcome)
      modifies this
      ensures (Db(), outcome) == Effect(old(Db()), Op.SetRole(id, role))
    {
      if role == Owner {
        outcome := ExecUserUpdate(Op.SetRole(id, role));
      } else {
        outcome := LastAdminGuardedUpdate(Op.SetRole(id, role));
      }
    }

    method Create(id: UserId, household: HouseholdId, email: string, role: Role, color: Color) returns (outcome: Outcome)
      modifies this
      ensures (Db(), outcome) == Effect(old(Db()), Op.Create(id, household, email, role, color))
    {
      if id in members {
        return Failed;
      }
      if exists other | other in members :: members[other].email == email {
        return DuplicateEmail;
      }
      members := members[id := Member(household, email, role, true)];
      profiles := profiles[id := color];
      outcome := Done;
    }

    /** Scans the colours the household's profiles wear. */
    method UsedColors(household: HouseholdId) returns (used: seq<Color>)
      ensures forall c: Color :: multiset(used)[c] == Used(Db(), household, c)
    {
      hide Wearers;
      used := [];
      var rows := profiles.Keys;
      ghost var db := Db();
      ghost var seen: set<UserId> := {};
      while rows != {}
        invariant seen + rows == profiles.Keys && seen !! rows
        invariant forall c: Color :: multiset(used)[c] == |Wearers(db, household, c) * seen|
        decreases |rows|
      {
        var id :| id in rows;
        ScanOneMore(db, household, used, seen, id);
        if id in members && members[id].household == household {
          used := used + [profiles[id]];
        }
        rows := rows - {id};
        seen := seen + {id};
      }
      WearersHaveProfiles(db, household);
    }

    method EnsureProfile(id: UserId) returns (outcome: Outcome)
      modifies this
      ensures (Db(), outcome) == Effect(old(Db()), Op.EnsureProfile(id))
    {
      if id !in members {
        return UserNotFound;
      }
      if id in profiles || !members[id].active {
        return Done;
      }
      var used := UsedColors(members[id].household);
      var color := PickColor(used);
      ghost var db, h := Db(), members[id].household;
      SameCountsSameColor(c => multiset(used)[c], c => Used(db, h, c));
      profiles := profiles[id := color];
      outcome := Done;
    }
  }

  /** The colour a profile row adds to a household's scan, if it is one of its own. */
  function ColorOf(db: Tables, h: HouseholdId, id: UserId): seq<Color>
    requires id in db.profiles
  {
    if id in db.members && db.members[id].household == h then [db.profiles[id]] else []
  }

  /** A colour is counted once more exactly when the scanned profile is one of its wearers. */
  lemma CountOneMore(used: seq<Color>, more: seq<Color>, c: Color, w: set<UserId>, seen: set<UserId>, id: UserId)
    requires |more| <= 1 && id !in seen && multiset(used)[c] == |w * seen|
    requires id in w <==> more == [c]
    ensures multiset(used + more)[c] == |w * (seen + {id})|
  {
    if id in w {
      assert w * (seen + {id}) == w * seen + {id};
    } else {
      assert w * (seen + {id}) == w * seen;
      assert more != [] ==> multiset(more)[c] == 0;
    }
    assert multiset(used + more) == multiset(used) + multiset(more);
  }

  lemma ScanOneMore(db: Tables, h: HouseholdId, used: seq<Color>, seen: set<UserId>, id: UserId)
    requires id in db.profiles && id !in seen
    requires forall c: Color :: multiset(used)[c] == |Wearers(db, h, c) * seen|
    ensures forall c: Color :: multiset(used + ColorOf(db, h, id))[c] == |Wearers(db, h, c) * (seen + {id})|
  {
    var more := ColorOf(db, h, id);
    forall c: Color
      ensures multiset(used + more)[c] == |Wearers(db, h, c) * (seen + {id})|
    {
      assert id in Wearers(db, h, c) <==> more == [c];
      hide Wearers, ColorOf;
      CountOneMore(used, more, c, Wearers(db, h, c), seen, id);
    }
  }

  lemma WearersHaveProfiles(db: Tables, h: HouseholdId)
    ensures forall c :: Wearers(db, h, c) * db.profiles.Keys == Wearers(db, h, c)
  {}

  lemma SingletonById(s: set<UserId>, ids: seq<UserId>, id: UserId)
    requires |ids| == |s| && forall x :: x in ids <==> x in s
    ensures s == {id} <==> WouldRemoveLastActiveAdmin(ids, id)
  {
    if |s| == 1 {
      var x :| x in s;
      assert |s - {x}| == 0;
      assert s == {x};
      assert ids[0] in ids;
    }
  }

  lemma SameCountsSameColor(f: Color -> nat, g: Color -> nat)
    requires forall c :: f(c) == g(c)
    ensures NextColor(f) == NextColor(g)
  {}
}
