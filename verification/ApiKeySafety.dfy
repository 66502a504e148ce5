/** What interleaved API key operations keep, and the one thing they do not. */
module ApiKeySafety {
  import opened ApiKeyRotation
  import opened ApiKeys
  import opened Common
  import Schedules

  /** A commit is the effect of one operation, or changes nothing. */
  lemma CommitIsEffect(s: State, e: Event)
    requires Invariant(s)
    ensures Invariant(Next(s, e))
    ensures var rows' := Next(s, e).rows;
      rows' == s.rows || (e.Advance? && e.t in s.open && rows' == Effect(s.rows, s.open[e.t].op).0)
  {
    hide RotationFits, Effect, Step;
    if e.Advance? {
      if e.t in s.open {
        StepInvariant(s, e.t);
        if e.t in Step(s, e.t, s.open[e.t]).open {
          OpenMeansNoCommit(s, e.t);
        } else {
          StepIsEffect(s, e.t);
        }
      }
    } else if e.Start? {
      BegunFits(s.rows, e.op);
      KeepInvariant(s, e.t, Begun(e.op));
    } else if e.t in s.open {
      CloseInvariant(s, e.t, s.open[e.t].op, s.rows, Aborted);
    }
  }

  lemma {:induction false} RunKeeps(s: State, es: seq<Event>)
    requires Invariant(s)
    ensures Invariant(Run(s, es)) && RevocationsKept(s.rows, Run(s, es).rows)
    ensures Indexed(s.rows) ==> Indexed(Run(s, es).rows)
  {
    if es != [] {
      hide Next, Invariant, Effect, Indexed;
      var n := |es| - 1;
      RunKeeps(s, es[..n]);
      var before := Run(s, es[..n]);
      CommitIsEffect(before, es[n]);
      if Next(before, es[n]).rows != before.rows {
        var op := before.open[es[n].t].op;
        EffectKeepsRevocations(before.rows, op);
        if Indexed(before.rows) {
          EffectKeepsIndex(before.rows, op);
        }
      }
    }
  }

  /** Main result: at most one key is current in every committed state. */
  lemma AtMostOneCurrent(rows: Rows, es: seq<Event>)
    requires Indexed(rows)
    ensures Indexed(Run(Quiet(rows), es).rows)
  {
    hide Run;
    RunKeeps(Quiet(rows), es);
  }

  /** Main result: no later step removes a row or alters the time it was revoked. */
  lemma RevocationIsFinal(rows: Rows, es: seq<Event>, more: seq<Event>)
    ensures RevocationsKept(Run(Quiet(rows), es).rows, Run(Quiet(rows), es + more).rows)
  {
    hide Run, RevocationsKept;
    RunKeeps(Quiet(rows), es);
    RunKeeps(Run(Quiet(rows), es), more);
    RunConcat(Quiet(rows), es, more);
  }

  // What was answered Done is there for good.

  /** What an operation that answered Done has left in the rows, whatever came after it. */
  predicate Kept(rows: Rows, op: Op) {
    match op
    case Create(id) => id in rows
    case Rotate(incumbent, expiresAt, next) =>
      next in rows && (incumbent.Some? ==> incumbent.value in rows && rows[incumbent.value].expiresAt.Some?)
    case Revoke(id, revokedAt) => id in rows && rows[id].revokedAt == Some(revokedAt)
  }

  lemma EffectKept(rows: Rows, op: Op)
    requires Effect(rows, op).1 == Done
    ensures Kept(Effect(rows, op).0, op)
  {}

  lemma StaysKept(rows: Rows, op: Op, next: Op)
    requires Kept(rows, op)
    ensures Kept(Effect(rows, next).0, op)
  {}

  /** Every operation in the log that answered Done. */
  predicate AllKept(rows: Rows, log: seq<Entry>) {
    forall i | 0 <= i < |log| && log[i].outcome == Done :: Kept(rows, log[i].op)
  }

  lemma AllStayKept(rows: Rows, log: seq<Entry>, next: Op)
    requires AllKept(rows, log)
    ensures AllKept(Effect(rows, next).0, log)
  {
    hide Kept, Effect;
    forall i | 0 <= i < |log| && log[i].outcome == Done
      ensures Kept(Effect(rows, next).0, log[i].op)
    {
      StaysKept(rows, log[i].op, next);
    }
  }

  lemma NextKept(s: State, e: Event)
    requires Invariant(s) && AllKept(s.rows, s.log)
    ensures AllKept(Next(s, e).rows, Next(s, e).log)
  {
    hide Effect, Invariant, Kept;
    if e.Advance? {
      if e.t in s.open {
        if e.t in Step(s, e.t, s.open[e.t]).open {
          OpenMeansNoCommit(s, e.t);
        } else {
          StepIsEffect(s, e.t);
          var op := s.open[e.t].op;
          hide Step;
          AllStayKept(s.rows, s.log, op);
          if Effect(s.rows, op).1 == Done {
            EffectKept(s.rows, op);
          }
        }
      }
    }
  }

  lemma {:induction false} RunKept(rows: Rows, es: seq<Event>)
    ensures AllKept(Run(Quiet(rows), es).rows, Run(Quiet(rows), es).log)
  {
    if es != [] {
      hide Next, Invariant, AllKept;
      var n := |es| - 1;
      RunKept(rows, es[..n]);
      EveryRunIsSerial(rows, es[..n]);
      NextKept(Run(Quiet(rows), es[..n]), es[n]);
    }
  }

  /** Main result: in every schedule, a revocation that answered Done has stamped its key with
      the very time it was given, and that stays; a key that was created or rotated in is there,
      and the key it replaced has an expiry. */
  lemma DoneIsKept(rows: Rows, es: seq<Event>, i: nat)
    requires var s := Run(Quiet(rows), es); i < |s.log| && s.log[i].outcome == Done
    ensures var s := Run(Quiet(rows), es);
      match s.log[i].op
      case Create(id) => id in s.rows
      case Rotate(incumbent, _, next) =>
        next in s.rows && (incumbent.Some? ==> incumbent.value in s.rows && s.rows[incumbent.value].expiresAt.Some?)
      case Revoke(id, revokedAt) => id in s.rows && s.rows[id].revokedAt == Some(revokedAt)
  {
    hide Run;
    RunKept(rows, es);
    assert Kept(Run(Quiet(rows), es).rows, Run(Quiet(rows), es).log[i].op);
  }

  // The first expiry of a superseded key.

  lemma EffectOnExpiry(rows: Rows, op: Op, id: KeyId)
    requires id in rows && rows[id].expiresAt.Some? && Effect(rows, op).0[id].expiresAt != rows[id].expiresAt
    ensures op.Rotate? && op.incumbent == Some(id) && rows[id].revokedAt.None? && CurrentKeys(rows) == {}
  {
    if op.Rotate? && op.incumbent == Some(id) {
      assert CurrentKeys(Supersede(rows, op.incumbent, op.expiresAt)) == CurrentKeys(rows);
    }
  }

  /** Main result: a rotation naming a key that is superseded already cannot commit while any
      key is current, so the expiry the first rotation gave stays. */
  lemma StaleRotationNeedsNoCurrent(rows: Rows, es: seq<Event>, e: Event, id: KeyId)
    requires var s := Run(Quiet(rows), es);
      && id in s.rows && s.rows[id].expiresAt.Some?
      && id in Next(s, e).rows && Next(s, e).rows[id].expiresAt != s.rows[id].expiresAt
    ensures var s := Run(Quiet(rows), es);
      && CurrentKeys(s.rows) == {} && s.rows[id].revokedAt.None?
      && e.Advance? && e.t in s.open && s.open[e.t].op.Rotate? && s.open[e.t].op.incumbent == Some(id)
  {
    assert Invariant(Quiet(rows));
    hide Run, Next, Invariant, Effect;
    RunKeeps(Quiet(rows), es);
    var s := Run(Quiet(rows), es);
    CommitIsEffect(s, e);
    EffectOnExpiry(s.rows, s.open[e.t].op, id);
  }

  /** A commit appends its operation to the log, with what the operation did. */
  lemma NextLogs(s: State, e: Event)
    requires Invariant(s) && |Next(s, e).log| != |s.log|
    ensures var entry := Next(s, e).log[|s.log|];
      entry.outcome != Aborted ==> (Next(s, e).rows, entry.outcome) == Effect(s.rows, entry.op)
  {
    hide Effect, Invariant;
    if e.Advance? {
      if e.t in Step(s, e.t, s.open[e.t]).open {
        OpenMeansNoCommit(s, e.t);
      } else {
        StepIsEffect(s, e.t);
      }
    }
  }

  /** Main result: in any schedule, a rotation naming a key that is superseded already commits
      only at a moment without a current key, whatever expiry it brings. */
  lemma StaleCommitNeedsNoCurrent(rows: Rows, es: seq<Event>, e: Event, id: KeyId, expiresAt: Time, next: KeyId)
    requires var s := Run(Quiet(rows), es);
      && id in s.rows && s.rows[id].expiresAt.Some?
      && |Next(s, e).log| != |s.log|
      && Next(s, e).log[|s.log|] == Entry(Rotate(Some(id), expiresAt, next), Done)
    ensures var s := Run(Quiet(rows), es); CurrentKeys(s.rows) == {} && s.rows[id].revokedAt.None?
  {
    assert Invariant(Quiet(rows));
    hide Run, Next, Invariant;
    RunKeeps(Quiet(rows), es);
    var s := Run(Quiet(rows), es);
    NextLogs(s, e);
    assert CurrentKeys(Supersede(s.rows, Some(id), expiresAt)) == CurrentKeys(s.rows);
  }

  predicate NoRevoke(e: Event) {
    e.Start? ==> !e.op.Revoke?
  }

  predicate NoRevokes(es: seq<Event>) {
    forall e | e in es :: NoRevoke(e)
  }

  ghost predicate NothingRevokes(s: State) {
    Invariant(s) && CurrentKeys(s.rows) != {} && forall t | t in s.open :: !s.open[t].op.Revoke?
  }

  lemma EffectKeepsCurrent(rows: Rows, op: Op)
    requires !op.Revoke? && CurrentKeys(rows) != {}
    ensures CurrentKeys(Effect(rows, op).0) != {}
  {
    if op.Rotate? {
      RotationIsAllOrNothing(rows, op.incumbent, op.expiresAt, op.next);
    }
  }

  lemma OpenOps(s: State, e: Event)
    ensures forall t | t in Next(s, e).open ::
      (t in s.open && Next(s, e).open[t].op == s.open[t].op) || (e.Start? && Next(s, e).open[t].op == e.op)
  {
    hide CurrentKeys, InsertWaits, LockFree, OtherCurrent, Unrevoked;
  }

  lemma {:induction false} RunWithoutRevokes(s: State, es: seq<Event>, id: KeyId)
    requires NothingRevokes(s) && NoRevokes(es) && id in s.rows && s.rows[id].expiresAt.Some?
    ensures NothingRevokes(Run(s, es)) && id in Run(s, es).rows && Run(s, es).rows[id].expiresAt == s.rows[id].expiresAt
  {
    if es != [] {
      hide Next, Invariant, Effect, CurrentKeys;
      var n := |es| - 1;
      RunWithoutRevokes(s, es[..n], id);
      var before := Run(s, es[..n]);
      CommitIsEffect(before, es[n]);
      OpenOps(before, es[n]);
      assert NoRevoke(es[n]);
      var after := Next(before, es[n]);
      if after.rows != before.rows {
        var op := before.open[es[n].t].op;
        EffectKeepsCurrent(before.rows, op);
        EffectKeepsRevocations(before.rows, op);
        if after.rows[id].expiresAt != before.rows[id].expiresAt {
          EffectOnExpiry(before.rows, op, id);
        }
      }
    }
  }

  /** Main result: with a current key to begin with and nothing revoked, every superseded key
      keeps its first expiry, and there is a current key, whatever the interleaving. */
  lemma ExpiryKeptWithoutRevocation(rows: Rows, es: seq<Event>, id: KeyId)
    requires CurrentKeys(rows) != {} && NoRevokes(es) && id in rows && rows[id].expiresAt.Some?
    ensures var rows' := Run(Quiet(rows), es).rows;
      CurrentKeys(rows') != {} && id in rows' && rows'[id].expiresAt == rows[id].expiresAt
  {
    hide Run;
    RunWithoutRevokes(Quiet(rows), es, id);
  }

  // One operation alone.

  function Solo(t: TxId, op: Op): seq<Event> {
    [Start(t, op)] + Schedules.Repeated(Advance(t), 4)
  }

  function Alone(s: State, t: TxId, tx: Tx): State {
    s.(open := map[t := tx])
  }

  lemma AloneSteps(s: State, t: TxId, tx: Tx)
    requires s.open == map[]
    ensures var a := Alone(s, t, tx);
      && LockFree(a, t) && !InsertWaits(a, t)
      && (forall t' | t' in a.open && t' != t :: false)
      && (forall tx' :: Keep(a, t, tx') == Alone(s, t, tx'))
      && (forall rows, outcome :: Close(a, t, tx.op, rows, outcome) == State(rows, map[], s.log + [Entry(tx.op, outcome)]))
  {
    assert forall tx' :: map[t := tx][t := tx'] == map[t := tx'];
    assert map[t := tx] - {t} == map[];
  }

  function Ended(s: State, op: Op): State {
    var (rows, outcome) := Effect(s.rows, op);
    State(rows, map[], s.log + [Entry(op, outcome)])
  }

  lemma EndedStays(s: State, op: Op, t: TxId)
    ensures Next(Ended(s, op), Advance(t)) == Ended(s, op)
  {}

  lemma SoloStatement(s: State, t: TxId, op: Op)
    requires s.open == map[] && !op.Rotate?
    ensures Next(Alone(s, t, Begun(op)), Advance(t)) == Ended(s, op)
  {
    AloneSteps(s, t, Begun(op));
  }

  lemma SoloRotation(s: State, t: TxId, op: Op)
    requires s.open == map[] && op.Rotate?
    ensures Next(Alone(s, t, Begun(op)), Advance(t)) == Alone(s, t, Locked(op))
    ensures Next(Alone(s, t, Locked(op)), Advance(t))
      == if op.incumbent.Some? && !Unrevoked(s.rows, op.incumbent.value) then Ended(s, op) else Alone(s, t, Superseded(op))
    ensures (op.incumbent.Some? ==> Unrevoked(s.rows, op.incumbent.value)) ==>
      Next(Alone(s, t, Superseded(op)), Advance(t))
        == if Effect(s.rows, op).1 != Done then Ended(s, op) else Alone(s, t, Inserted(op))
    ensures Effect(s.rows, op).1 == Done ==> Next(Alone(s, t, Inserted(op)), Advance(t)) == Ended(s, op)
  {
    AloneSteps(s, t, Begun(op));
    AloneSteps(s, t, Locked(op));
    AloneSteps(s, t, Superseded(op));
    AloneSteps(s, t, Inserted(op));
    if op.incumbent.Some? ==> op.incumbent.value in s.rows {
      NoOtherCurrentIff(s.rows, op.incumbent, op.expiresAt);
    }
  }

  /** An operation scheduled with nothing else open does what it does on its own. */
  lemma SoloRun(s: State, t: TxId, op: Op)
    requires s.open == map[]
    ensures Run(s, Solo(t, op)) == Ended(s, op)
  {
    assert Next(s, Start(t, op)) == Alone(s, t, Begun(op));
    EndedStays(s, op, t);
    if op.Rotate? {
      SoloRotation(s, t, op);
      assert op.incumbent.Some? && !Unrevoked(s.rows, op.incumbent.value) ==> Effect(s.rows, op).1 != Done;
    } else {
      SoloStatement(s, t, op);
    }
    Schedules.RunStarting(Next, s, Start(t, op), Advance(t), 4);
    hide Next, Alone, Ended, Effect, Unrevoked;
    var s0 := Alone(s, t, Begun(op));
    Schedules.TimesStep(Next, s0, Advance(t), 0);
    Schedules.TimesStep(Next, s0, Advance(t), 1);
    Schedules.TimesStep(Next, s0, Advance(t), 2);
    Schedules.TimesStep(Next, s0, Advance(t), 3);
  }

  // Revoking the replacement lets a stale rotation through.

  /** No schedule moves the expiry this key was given. */
  ghost predicate ExpiryKept(rows: Rows, id: KeyId)
    requires id in rows
  {
    forall es: seq<Event> ::
      id in Run(Quiet(rows), es).rows && Run(Quiet(rows), es).rows[id].expiresAt == rows[id].expiresAt
  }

  lemma RevokeThenRotate(rows: Rows, id: KeyId, current: KeyId, next: KeyId)
    requires Indexed(rows) && current in CurrentKeys(rows) && next !in rows
    requires id in rows && rows[id].expiresAt.Some? && rows[id].revokedAt.None?
    ensures var es := Solo(0, Revoke(current, 0)) + Solo(0, Rotate(Some(id), rows[id].expiresAt.value + 1, next));
      id in Run(Quiet(rows), es).rows && Run(Quiet(rows), es).rows[id].expiresAt == Some(rows[id].expiresAt.value + 1)
  {
    var revoke, rotate := Revoke(current, 0), Rotate(Some(id), rows[id].expiresAt.value + 1, next);
    var s1 := Ended(Quiet(rows), revoke);
    assert s1.rows == rows[current := rows[current].(revokedAt := Some(0))];
    assert CurrentKeys(s1.rows) == {};
    StaleRotationIff(s1.rows, id, rotate.expiresAt, next);
    hide Run, Effect, CurrentKeys;
    SoloRun(Quiet(rows), 0, revoke);
    SoloRun(s1, 0, rotate);
    RunConcat(Quiet(rows), Solo(0, revoke), Solo(0, rotate));
  }

  lemma {:induction false} RevokedKeepsExpiry(s: State, es: seq<Event>, id: KeyId)
    requires Invariant(s) && id in s.rows && s.rows[id].revokedAt.Some?
    ensures var rows := Run(s, es).rows;
      id in rows && rows[id].revokedAt.Some? && rows[id].expiresAt == s.rows[id].expiresAt
  {
    if es != [] {
      hide Next, Invariant;
      var n := |es| - 1;
      RevokedKeepsExpiry(s, es[..n], id);
      RunKeeps(s, es[..n]);
      CommitIsEffect(Run(s, es[..n]), es[n]);
    }
  }

  /** Without a current key a stale rotation alone moves the expiry. */
  lemma RotateAtOnce(rows: Rows, id: KeyId, next: KeyId)
    requires CurrentKeys(rows) == {} && next !in rows
    requires id in rows && rows[id].expiresAt.Some? && rows[id].revokedAt.None?
    ensures var es := Solo(0, Rotate(Some(id), rows[id].expiresAt.value + 1, next));
      id in Run(Quiet(rows), es).rows && Run(Quiet(rows), es).rows[id].expiresAt == Some(rows[id].expiresAt.value + 1)
  {
    var rotate := Rotate(Some(id), rows[id].expiresAt.value + 1, next);
    StaleRotationIff(rows, id, rotate.expiresAt, next);
    hide Run, Effect, CurrentKeys;
    SoloRun(Quiet(rows), 0, rotate);
  }

  /** Main result: a superseded key is sure to keep its expiry under every schedule,
      revocations included, exactly when it has been revoked itself. */
  lemma ExpiryKeptIff(rows: Rows, id: KeyId)
    requires Indexed(rows) && id in rows && rows[id].expiresAt.Some?
    ensures ExpiryKept(rows, id) <==> rows[id].revokedAt.Some?
  {
    hide Run;
    if rows[id].revokedAt.Some? {
      forall es: seq<Event>
        ensures id in Run(Quiet(rows), es).rows && Run(Quiet(rows), es).rows[id].expiresAt == rows[id].expiresAt
      {
        RevokedKeepsExpiry(Quiet(rows), es, id);
      }
    } else {
      var next := AboveAll(rows.Keys);
      if current :| current in CurrentKeys(rows) {
        RevokeThenRotate(rows, id, current, next);
      } else {
        RotateAtOnce(rows, id, next);
      }
    }
  }
}
