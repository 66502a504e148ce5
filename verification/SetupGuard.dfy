/** The first-run guard: a latch that stands in for a lookup of the member table. */
module SetupGuard {
  import Schedules
  import opened IdentityTables
  import MemberTransactions

  const SETUP_PATH := "/setup"
  const API_PATH_PREFIX := "/api/"
  const SETUP_EXEMPT_PREFIXES: seq<string> := [SETUP_PATH, "/static/", "/healthz", "/readyz", "/metrics"]

  /** What asking the member table gives at the moment a request is served. */
  datatype Lookup = NoUser | HasUser | LookupFailed

  datatype Request = Request(path: string, htmx: bool, lookup: Lookup)

  datatype Response = Admitted | ServerError | SetupRequired | HxRedirect | SeeOther

  predicate Exempt(path: string) {
    exists i | 0 <= i < |SETUP_EXEMPT_PREFIXES| :: SETUP_EXEMPT_PREFIXES[i] <= path
  }

  function ToSetup(path: string, htmx: bool): Response {
    if API_PATH_PREFIX <= path then SetupRequired else if htmx then HxRedirect else SeeOther
  }

  /** A guard without a latch. */
  function Stateless(r: Request): Response {
    if Exempt(r.path) then Admitted
    else match r.lookup
      case LookupFailed => ServerError
      case HasUser => Admitted
      case NoUser => ToSetup(r.path, r.htmx)
  }

  /** A request whose lookup, if made, opens the guard for good. */
  predicate Opens(r: Request) {
    !Exempt(r.path) && r.lookup.HasUser?
  }

  /** The latch after the first n requests. */
  predicate Latched(log: seq<Request>, n: nat)
    requires n <= |log|
  {
    exists i | 0 <= i < n :: Opens(log[i])
  }

  function AnswerAt(log: seq<Request>, i: nat): Response
    requires i < |log|
  {
    if Latched(log, i) then Admitted else Stateless(log[i])
  }

  class Guard {
    var complete: bool
    ghost var log: seq<Request>

    ghost predicate Valid()
      reads this
    {
      complete <==> Latched(log, |log|)
    }

    constructor ()
      ensures Valid() && log == []
    {
      complete := false;
      log := [];
    }

    method Serve(r: Request) returns (response: Response, lookedUp: bool)
      requires Valid()
      modifies this
      ensures Valid() && log == old(log) + [r]
      ensures response == AnswerAt(log, |old(log)|)
      ensures lookedUp <==> !Exempt(r.path) && !Latched(log, |old(log)|)
    {
      LatchSteps(log, r);
      log := log + [r];
      var exempt := IsSetupExempt(r.path);
      lookedUp := false;
      if exempt || complete {
        return Admitted, false;
      }
      lookedUp := true;
      if r.lookup.LookupFailed? {
        return ServerError, true;
      }
      if r.lookup.HasUser? {
        complete := true;
        return Admitted, true;
      }
      response := ToSetup(r.path, r.htmx);
    }
  }

  method IsSetupExempt(path: string) returns (exempt: bool)
    ensures exempt <==> Exempt(path)
  {
    for i := 0 to |SETUP_EXEMPT_PREFIXES|
      invariant forall j | 0 <= j < i :: !(SETUP_EXEMPT_PREFIXES[j] <= path)
    {
      if SETUP_EXEMPT_PREFIXES[i] <= path {
        return true;
      }
    }
    exempt := false;
  }

  lemma LatchSteps(log: seq<Request>, r: Request)
    ensures Latched(log + [r], |log|) == Latched(log, |log|)
    ensures Latched(log + [r], |log| + 1) <==> Latched(log, |log|) || Opens(r)
  {
    hide Opens;
    if i :| 0 <= i < |log| && Opens(log[i]) {
      assert (log + [r])[i] == log[i];
    }
    if Opens(r) {
      assert (log + [r])[|log|] == r;
    }
  }

  // Many requests at once, over the member table itself.

  type RequestId = nat

  /** A request between two of its steps: it found the latch closed, or its lookup found a user. */
  datatype Phase = Missed(path: string, htmx: bool) | Found

  /** A decided request: what asking the member table at that instant gives, whether the
      guard did ask, and the answer. */
  datatype Served = Served(request: Request, asked: bool, response: Response)

  datatype State = State(tables: MemberTransactions.State, complete: bool, serving: map<RequestId, Phase>,
                         served: seq<Served>)

  /** up is whether a lookup of the member table succeeds at that instant. */
  datatype Event =
    | Table(e: MemberTransactions.Event)
    | Load(r: RequestId, path: string, htmx: bool, up: bool)
    | Look(r: RequestId, up: bool)
    | Store(r: RequestId)

  /** What asking whether there is any user gives now. */
  function Asked(s: State, up: bool): Lookup {
    if !up then LookupFailed else if s.tables.db.members != map[] then HasUser else NoUser
  }

  function Decide(s: State, serving: map<RequestId, Phase>, request: Request, asked: bool, response: Response): State {
    State(s.tables, s.complete, serving, s.served + [Served(request, asked, response)])
  }

  function Next(s: State, e: Event): State {
    match e
    case Table(e) => s.(tables := MemberTransactions.Next(s.tables, e))
    case Load(r, path, htmx, up) =>
      if r in s.serving then s
      else if Exempt(path) || s.complete
        then Decide(s, s.serving, Request(path, htmx, Asked(s, up)), false, Admitted)
      else s.(serving := s.serving[r := Missed(path, htmx)])
    case Look(r, up) => if r in s.serving && s.serving[r].Missed? then LookUp(s, r, s.serving[r], up) else s
    case Store(r) =>
      if r in s.serving && s.serving[r].Found? then s.(complete := true, serving := s.serving - {r}) else s
  }

  /** The lookup decides: fail, let pass and go on to open the latch, or send to the wizard. */
  function LookUp(s: State, r: RequestId, phase: Phase, up: bool): State
    requires phase.Missed?
  {
    var request := Request(phase.path, phase.htmx, Asked(s, up));
    match request.lookup
    case LookupFailed => Decide(s, s.serving - {r}, request, true, ServerError)
    case HasUser => Decide(s, s.serving[r := Found], request, true, Admitted)
    case NoUser => Decide(s, s.serving - {r}, request, true, ToSetup(phase.path, phase.htmx))
  }

  function Run(s: State, es: seq<Event>): State {
    Schedules.Run(Next, s, es)
  }

  function Idle(db: Tables): State {
    State(MemberTransactions.Quiet(db), false, map[], [])
  }

  /** A decided request was answered as a guard that always asks would answer it, unless the
      lookup it was spared would have failed. */
  predicate AsIfAsked(a: Served) {
    && (a.response == Stateless(a.request) <==> Exempt(a.request.path) || a.asked || !a.request.lookup.LookupFailed?)
    && (Exempt(a.request.path) || !a.asked ==> a.response == Admitted)
  }

  /** The latch, and every request about to set it, know of a member that is still there;
      requests under way are not exempt; the ones decided were decided right. */
  ghost predicate Fresh(s: State) {
    && MemberTransactions.WellFormed(s.tables)
    && (s.complete ==> s.tables.db.members != map[])
    && (forall r | r in s.serving ::
          if s.serving[r].Found? then s.tables.db.members != map[] else !Exempt(s.serving[r].path))
    && (forall a | a in s.served :: AsIfAsked(a))
  }

  lemma MembersStay(s: MemberTransactions.State, e: MemberTransactions.Event)
    requires MemberTransactions.WellFormed(s) && s.db.members != map[]
    ensures MemberTransactions.Next(s, e).db.members != map[]
  {
    hide MemberTransactions.Step, EmailTaken;
    var id :| id in s.db.members;
    if e.Advance? && e.t in s.open {
      MemberTransactions.ClosingStep(s, e.t);
    }
    assert id in MemberTransactions.Next(s, e).db.members;
  }

  /** The answers are right one by one. */
  lemma DecisionsFit(s: State, path: string, htmx: bool, up: bool)
    ensures var request := Request(path, htmx, Asked(s, up));
      && (Exempt(path) || (s.complete && s.tables.db.members != map[]) ==> AsIfAsked(Served(request, false, Admitted)))
      && (!Exempt(path) ==> AsIfAsked(Served(request, true, Stateless(request))))
  {
    hide Exempt;
  }

  lemma NextFresh(s: State, e: Event)
    requires Fresh(s)
    ensures Fresh(Next(s, e))
    ensures s.tables.db.members != map[] ==> Next(s, e).tables.db.members != map[]
  {
    hide MemberTransactions.WellFormed, MemberTransactions.Next, AsIfAsked, Exempt;
    if e.Table? {
      MemberTransactions.NextWellFormed(s.tables, e.e);
      if s.tables.db.members != map[] {
        MembersStay(s.tables, e.e);
      }
    } else if e.Load? {
      DecisionsFit(s, e.path, e.htmx, e.up);
    } else if e.Look? && e.r in s.serving && s.serving[e.r].Missed? {
      DecisionsFit(s, s.serving[e.r].path, s.serving[e.r].htmx, e.up);
    }
  }

  lemma {:induction false} RunFresh(s: State, es: seq<Event>)
    requires Fresh(s)
    ensures Fresh(Run(s, es))
    ensures s.tables.db.members != map[] ==> Run(s, es).tables.db.members != map[]
  {
    if es != [] {
      hide Next, Fresh;
      RunFresh(s, es[..|es| - 1]);
      NextFresh(Run(s, es[..|es| - 1]), es[|es| - 1]);
    }
  }

  lemma RunConcat(s: State, es: seq<Event>, more: seq<Event>)
    ensures Run(s, es + more) == Run(Run(s, es), more)
  {
    Schedules.RunConcat(Next, s, es, more);
  }

  /** Main result: however the loads, lookups and stores of concurrent requests interleave with
      the member transactions, each request is answered exactly as a guard would that asks the
      member table at that instant, except that an open latch admits where asking would fail. */
  lemma LatchRefinesLookupIff(db: Tables, es: seq<Event>, a: Served)
    requires ValidTables(db) && a in Run(Idle(db), es).served
    ensures a.response == Stateless(a.request)
      <==> Exempt(a.request.path) || a.asked || !a.request.lookup.LookupFailed?
    ensures a.response != Stateless(a.request) ==> a.response == Admitted
  {
    hide Run, Stateless, Exempt;
    RunFresh(Idle(db), es);
    assert AsIfAsked(a);
  }

  /** Main result: once the latch is open a lookup would find a user for ever. */
  lemma LatchIsNeverStale(db: Tables, es: seq<Event>, more: seq<Event>)
    requires ValidTables(db) && Run(Idle(db), es).complete
    ensures Run(Idle(db), es + more).tables.db.members != map[]
  {
    hide Run;
    RunFresh(Idle(db), es);
    RunFresh(Run(Idle(db), es), more);
    RunConcat(Idle(db), es, more);
  }

  // The guard's one method is these steps taken at once.

  /** A request served while nothing happens in between is answered, opens the latch and looks
      up as Guard.Serve does it from the same latch. */
  lemma ServedAtOnce(s: State, r: RequestId, path: string, htmx: bool, up: bool, log: seq<Request>)
    requires r !in s.serving && (s.complete <==> Latched(log, |log|))
    ensures var request := Request(path, htmx, Asked(s, up));
      var s' := Run(s, [Load(r, path, htmx, up), Look(r, up), Store(r)]);
      && s'.tables == s.tables && s'.serving == s.serving
      && (s'.complete <==> Latched(log + [request], |log| + 1))
      && s'.served == s.served
           + [Served(request, !Exempt(path) && !Latched(log, |log|), AnswerAt(log + [request], |log|))]
  {
    var request := Request(path, htmx, Asked(s, up));
    LatchSteps(log, request);
    Schedules.RunThree(Next, s, Load(r, path, htmx, up), Look(r, up), Store(r));
    assert Run(s, [Load(r, path, htmx, up), Look(r, up), Store(r)])
      == Next(Next(Next(s, Load(r, path, htmx, up)), Look(r, up)), Store(r));
    hide Run, Latched, Exempt;
    assert s.serving[r := Missed(path, htmx)] - {r} == s.serving;
    assert s.serving[r := Missed(path, htmx)][r := Found] - {r} == s.serving;
  }

  // The answers themselves.

  /** The paths that are never sent to the wizard. */
  predicate AlwaysServed(path: string) {
    "/setup" <= path || "/static/" <= path || "/healthz" <= path || "/readyz" <= path || "/metrics" <= path
  }

  lemma AlwaysServedIff(path: string)
    ensures AlwaysServed(path) <==> Exempt(path)
  {
    var all := SETUP_EXEMPT_PREFIXES;
    assert all[0] == "/setup" && all[1] == "/static/" && all[2] == "/healthz" && all[3] == "/readyz" && all[4] == "/metrics";
    if AlwaysServed(path) {
      assert exists i | 0 <= i < 5 :: all[i] <= path;
    }
  }

  /** The answer to a request that does ask. */
  predicate AnsweredByLookup(request: Request, response: Response) {
    match request.lookup
    case HasUser => response == Admitted
    case LookupFailed => response == ServerError
    case NoUser =>
      if "/api/" <= request.path then response == SetupRequired
      else if request.htmx then response == HxRedirect
      else response == SeeOther
  }

  /** Main result: in every interleaving a request for an exempt path is admitted; any other is
      admitted once there is a member, and while there is none is refused with the API's error,
      the HTMX redirect or the plain one by what it is; a failed lookup is a server error. */
  lemma AnswersByLookup(db: Tables, es: seq<Event>, a: Served)
    requires ValidTables(db) && a in Run(Idle(db), es).served
    ensures AlwaysServed(a.request.path) ==> a.response == Admitted
    ensures !AlwaysServed(a.request.path) && (a.asked || !a.request.lookup.LookupFailed?) ==>
      AnsweredByLookup(a.request, a.response)
  {
    AlwaysServedIff(a.request.path);
    LatchRefinesLookupIff(db, es, a);
    hide Run, Exempt, AlwaysServed;
    assert Exempt(a.request.path) ==> a.response == Admitted;
  }
}
