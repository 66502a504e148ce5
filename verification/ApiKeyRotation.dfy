/** Interleaved Create, Rotate and Revoke calls. Create and Revoke are single statements; a
    Rotate holds an advisory lock, then a row lock on its incumbent, until it ends. A statement
    that would wait for another transaction leaves the state as it is. */
module ApiKeyRotation {
  import Schedules
  import opened ApiKeys
  import opened Common

  type TxId = nat

  /** An open transaction, by the last statement it completed. */
  datatype Tx = Begun(op: Op) | Locked(op: Op) | Superseded(op: Op) | Inserted(op: Op)

  datatype Entry = Entry(op: Op, outcome: Outcome)

  /** The committed rows, the open transactions, and how the others ended, in order. */
  datatype State = State(rows: Rows, open: map<TxId, Tx>, log: seq<Entry>)

  datatype Event = Start(t: TxId, op: Op) | Advance(t: TxId) | Abort(t: TxId)

  function Quiet(rows: Rows): State {
    State(rows, map[], [])
  }

  predicate LockFree(s: State, t: TxId) {
    forall t' | t' in s.open && t' != t :: s.open[t'].Begun?
  }

  predicate LocksRow(tx: Tx, id: KeyId) {
    (tx.Superseded? || tx.Inserted?) && tx.op.Rotate? && tx.op.incumbent == Some(id)
  }

  /** An insert waits while another transaction may yet add a current key or take one away. */
  predicate InsertWaits(s: State, t: TxId) {
    exists t' | t' in s.open && t' != t ::
      s.open[t'].Inserted? || exists id | id in s.rows && LocksRow(s.open[t'], id) :: s.rows[id].Current()
  }

  function Keep(s: State, t: TxId, tx: Tx): State {
    s.(open := s.open[t := tx])
  }

  function Close(s: State, t: TxId, op: Op, rows: Rows, outcome: Outcome): State {
    State(rows, s.open - {t}, s.log + [Entry(op, outcome)])
  }

  function Next(s: State, e: Event): State {
    match e
    case Start(t, op) => if t in s.open then s else Keep(s, t, Begun(op))
    case Advance(t) => if t in s.open then Step(s, t, s.open[t]) else s
    case Abort(t) => if t in s.open then Close(s, t, s.open[t].op, s.rows, Aborted) else s
  }

  function Step(s: State, t: TxId, tx: Tx): State {
    match tx.op
    case Create(id) =>
      if InsertWaits(s, t) then s
      else if id in s.rows then Close(s, t, tx.op, s.rows, Failed)
      else if CurrentKeys(s.rows) != {} then Close(s, t, tx.op, s.rows, KeyExists)
      else Close(s, t, tx.op, s.rows[id := NEW_KEY], Done)
    case Revoke(id, at) =>
      if exists t' | t' in s.open && t' != t :: LocksRow(s.open[t'], id) then s
      else if !Unrevoked(s.rows, id) then Close(s, t, tx.op, s.rows, NotFound)
      else Close(s, t, tx.op, s.rows[id := s.rows[id].(revokedAt := Some(at))], Done)
    case Rotate(incumbent, expiresAt, next) =>
      match tx
      case Begun(_) => if LockFree(s, t) then Keep(s, t, Locked(tx.op)) else s
      case Locked(_) =>
        if incumbent.Some? && !Unrevoked(s.rows, incumbent.value) then Close(s, t, tx.op, s.rows, NotFound)
        else Keep(s, t, Superseded(tx.op))
      case Superseded(_) =>
        if next in s.rows || OtherCurrent(s.rows, incumbent) then Close(s, t, tx.op, s.rows, Failed)
        else Keep(s, t, Inserted(tx.op))
      case Inserted(_) => Close(s, t, tx.op, Superseding(s.rows, incumbent, expiresAt)[next := NEW_KEY], Done)
  }

  /** A current key the rotation is not superseding. */
  predicate OtherCurrent(rows: Rows, incumbent: Option<KeyId>) {
    exists id | id in rows && Some(id) != incumbent :: rows[id].Current()
  }

  function Superseding(rows: Rows, incumbent: Option<KeyId>, expiresAt: Time): Rows {
    if incumbent.Some? && incumbent.value in rows then Supersede(rows, incumbent, expiresAt) else rows
  }

  function Run(s: State, es: seq<Event>): State {
    Schedules.Run(Next, s, es)
  }

  lemma RunConcat(s: State, es: seq<Event>, more: seq<Event>)
    ensures Run(s, es + more) == Run(Run(s, es), more)
  {
    Schedules.RunConcat(Next, s, es, more);
  }

  // What holds between statements.

  predicate RotationFits(rows: Rows, tx: Tx) {
    tx.op.Rotate? && (tx.Superseded? || tx.Inserted?) ==>
      && (tx.op.incumbent.Some? ==> Unrevoked(rows, tx.op.incumbent.value))
      && (tx.Inserted? ==> tx.op.next !in rows && !OtherCurrent(rows, tx.op.incumbent))
  }

  ghost predicate Invariant(s: State) {
    && (forall t, t' | t in s.open && t' in s.open && t != t' && !s.open[t].Begun? :: s.open[t'].Begun?)
    && (forall t | t in s.open :: RotationFits(s.rows, s.open[t]) && (s.open[t].op.Rotate? || s.open[t].Begun?))
  }

  lemma KeepInvariant(s: State, t: TxId, tx: Tx)
    requires Invariant(s) && RotationFits(s.rows, tx) && (tx.op.Rotate? || tx.Begun?) && (tx.Begun? || LockFree(s, t))
    ensures Invariant(Keep(s, t, tx))
  {
    hide RotationFits;
  }

  lemma CloseInvariant(s: State, t: TxId, op: Op, rows: Rows, outcome: Outcome)
    requires Invariant(s) && forall t' | t' in s.open && t' != t :: RotationFits(rows, s.open[t'])
    ensures Invariant(Close(s, t, op, rows, outcome))
  {
    hide RotationFits;
  }

  /** What a commit leaves true for the others. */
  lemma OthersFit(s: State, t: TxId, t': TxId)
    requires Invariant(s) && t in s.open && t' in s.open && t' != t && t !in Step(s, t, s.open[t]).open
    ensures RotationFits(Step(s, t, s.open[t]).rows, s.open[t'])
  {
    var tx, tx' := s.open[t], s.open[t'];
    assert RotationFits(s.rows, tx');
    if tx'.op.Rotate? && (tx'.Superseded? || tx'.Inserted?) {
      var id := tx'.op.incumbent;
      assert tx.Begun?;
      assert id.Some? ==> LocksRow(tx', id.value);
    }
  }

  lemma StepInvariant(s: State, t: TxId)
    requires Invariant(s) && t in s.open
    ensures Invariant(Step(s, t, s.open[t]))
  {
    var s', tx := Step(s, t, s.open[t]), s.open[t];
    assert RotationFits(s.rows, tx);
    if t in s'.open {
      if s' != s {
        KeepInvariant(s, t, s'.open[t]);
      }
    } else {
      forall t' | t' in s.open && t' != t
        ensures RotationFits(s'.rows, s.open[t'])
      {
        OthersFit(s, t, t');
      }
      hide RotationFits, Invariant;
      CloseInvariant(s, t, tx.op, s'.rows, s'.log[|s.log|].outcome);
    }
  }

  // Every run is a serial one.

  /** The rows after the first n operations of a log, one after the other. */
  function Replay(rows: Rows, log: seq<Entry>, n: nat): Rows
    requires n <= |log|
  {
    if n == 0 then rows
    else if log[n - 1].outcome == Aborted then Replay(rows, log, n - 1)
    else Effect(Replay(rows, log, n - 1), log[n - 1].op).0
  }

  /** Each answer is the one the operation gets in that serial order. */
  predicate AnswersFit(rows: Rows, log: seq<Entry>) {
    forall i | 0 <= i < |log| && log[i].outcome != Aborted ::
      log[i].outcome == Effect(Replay(rows, log, i), log[i].op).1
  }

  /** An operation that ends does, at that moment, what it would do alone. */
  lemma StepIsEffect(s: State, t: TxId)
    requires Invariant(s) && t in s.open && t !in Step(s, t, s.open[t]).open
    ensures var s' := Step(s, t, s.open[t]);
      && |s'.log| == |s.log| + 1 && s'.log == s.log + [s'.log[|s.log|]]
      && s'.log[|s.log|].op == s.open[t].op && s'.log[|s.log|].outcome != Aborted
      && (s'.rows, s'.log[|s.log|].outcome) == Effect(s.rows, s.open[t].op)
  {
    var tx := s.open[t];
    assert RotationFits(s.rows, tx);
    if tx.op.Rotate? && (tx.Superseded? || tx.Inserted?) {
      NoOtherCurrentIff(s.rows, tx.op.incumbent, tx.op.expiresAt);
    }
  }

  lemma NoOtherCurrentIff(rows: Rows, incumbent: Option<KeyId>, expiresAt: Time)
    requires incumbent.Some? ==> incumbent.value in rows
    ensures OtherCurrent(rows, incumbent) <==> CurrentKeys(Supersede(rows, incumbent, expiresAt)) != {}
  {
    var after := Supersede(rows, incumbent, expiresAt);
    if id :| id in rows && Some(id) != incumbent && rows[id].Current() {
      assert id in CurrentKeys(after);
    }
    if id :| id in CurrentKeys(after) {
      assert Some(id) != incumbent && rows[id].Current();
    }
  }

  lemma {:induction false} ReplayPrefix(rows: Rows, log: seq<Entry>, entry: Entry, n: nat)
    requires n <= |log|
    ensures Replay(rows, log + [entry], n) == Replay(rows, log, n)
  {
    hide Effect;
    if n > 0 {
      ReplayPrefix(rows, log, entry, n - 1);
    }
  }

  lemma OneMoreEntry(rows0: Rows, log: seq<Entry>, entry: Entry, rows: Rows)
    requires AnswersFit(rows0, log)
    requires var before := Replay(rows0, log, |log|);
      if entry.outcome == Aborted then rows == before else (rows, entry.outcome) == Effect(before, entry.op)
    ensures Replay(rows0, log + [entry], |log| + 1) == rows && AnswersFit(rows0, log + [entry])
  {
    hide Effect;
    forall i | 0 <= i <= |log|
      ensures Replay(rows0, log + [entry], i) == Replay(rows0, log, i)
    {
      ReplayPrefix(rows0, log, entry, i);
    }
    hide Replay;
    forall i | 0 <= i < |log| + 1 && (log + [entry])[i].outcome != Aborted
      ensures (log + [entry])[i].outcome == Effect(Replay(rows0, log + [entry], i), (log + [entry])[i].op).1
    {
      if i < |log| {
        assert (log + [entry])[i] == log[i];
      }
    }
  }

  ghost predicate Serial(rows0: Rows, s: State) {
    Invariant(s) && s.rows == Replay(rows0, s.log, |s.log|) && AnswersFit(rows0, s.log)
  }

  lemma NextSerial(rows0: Rows, s: State, e: Event)
    requires Serial(rows0, s)
    ensures Serial(rows0, Next(s, e))
  {
    var s' := Next(s, e);
    hide Replay, AnswersFit, RotationFits, Step;
    if e.Advance? {
      if e.t in s.open {
        StepSerial(rows0, s, e.t);
      }
    } else if e.Start? {
      BegunFits(s.rows, e.op);
      KeepInvariant(s, e.t, Begun(e.op));
    } else if e.t in s.open {
      CloseInvariant(s, e.t, s.open[e.t].op, s.rows, Aborted);
      OneMoreEntry(rows0, s.log, Entry(s.open[e.t].op, Aborted), s.rows);
    }
  }

  lemma BegunFits(rows: Rows, op: Op)
    ensures RotationFits(rows, Begun(op))
  {}

  lemma StepSerial(rows0: Rows, s: State, t: TxId)
    requires Serial(rows0, s) && t in s.open
    ensures Serial(rows0, Step(s, t, s.open[t]))
  {
    var s' := Step(s, t, s.open[t]);
    StepInvariant(s, t);
    if t !in s'.open {
      StepIsEffect(s, t);
      hide Step, Invariant, Replay, AnswersFit, Effect;
      OneMoreEntry(rows0, s.log, s'.log[|s.log|], s'.rows);
    } else {
      OpenMeansNoCommit(s, t);
    }
  }

  lemma OpenMeansNoCommit(s: State, t: TxId)
    requires t in s.open && t in Step(s, t, s.open[t]).open
    ensures var s' := Step(s, t, s.open[t]); s'.rows == s.rows && s'.log == s.log
  {}

  /** Main result: whatever the interleaving, the committed rows and all the answers are those
      of the operations that ended, run one at a time in the order they ended. */
  lemma {:induction false} EveryRunIsSerial(rows: Rows, es: seq<Event>)
    ensures var s := Run(Quiet(rows), es);
      s.rows == Replay(rows, s.log, |s.log|) && AnswersFit(rows, s.log) && Invariant(s)
  {
    if es != [] {
      hide Next, Invariant, Replay, AnswersFit;
      var n := |es| - 1;
      EveryRunIsSerial(rows, es[..n]);
      NextSerial(rows, Run(Quiet(rows), es[..n]), es[n]);
    }
  }
}
