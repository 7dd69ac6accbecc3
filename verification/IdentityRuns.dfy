/** Every interleaving of FindOrCreateIdentity and UpdateIdentity calls.

Each lock-held region is one step.  Between the two regions of a creation the lock
is free and the caller's create function decides the outcome, which is arbitrary.
A step that is not enabled changes nothing, so every sequence of steps is a run.  */
module IdentityRuns {
  import opened Prelude
  import opened DIDSyntax
  import opened IdentityStore
  import F = Flights

  type CallId = F.CallId

  datatype Call = Call(principal: string, serviceDID: string)

  datatype Answer =
    | Created(record: IdentityRecord)
    | Existing(record: IdentityRecord)
    | Failed

  datatype State = State(
    tables: Tables,
    flight: F.Flight<string>,
    calls: map<CallId, Call>,
    answers: map<CallId, Answer>)

  datatype Step =
    | Invoke(call: CallId, principal: string, serviceDID: string)
    | Look(call: CallId)
    | Wake(call: CallId)
    | Cancel(call: CallId)
    | Return(call: CallId, outcome: Result<IdentityRecord>)
    | Update(id: string, status: ManagedAgentStatus, at: Time)

  const START := State(NO_TABLES, F.Empty(), map[], map[])

  function Key(c: Call): string {
    ScopeKey(c.principal, c.serviceDID)
  }

  function Answering(s: State, t: CallId, answer: Answer): State {
    s.(answers := s.answers[t := answer])
  }

  function ApplyLook(s: State, t: CallId): State
    requires F.IsReady(s.flight, t)
  {
    match Enter(s.tables, s.flight.pending, s.flight.keys[t])
    case Found(record) => Answering(s, t, Existing(record)).(flight := F.Leave(s.flight, t))
    case Wait(_) => s.(flight := F.Park(s.flight, t))
    case Create => s.(flight := F.Begin(s.flight, t))
  }

  function Told(tables: Tables, c: Call, outcome: Result<IdentityRecord>): Answer {
    var admitted := Admit(tables, c.principal, c.serviceDID, outcome);
    if admitted.Ok? then Created(admitted.value) else Failed
  }

  function ApplyReturn(s: State, t: CallId, outcome: Result<IdentityRecord>): State
    requires t in s.calls && F.IsRunning(s.flight, t)
  {
    var c := s.calls[t];
    Answering(s, t, Told(s.tables, c, outcome)).(
      tables := Commit(s.tables, c.principal, c.serviceDID, outcome),
      flight := F.Finish(s.flight, t))
  }

  function Apply(s: State, step: Step): State {
    match step
    case Invoke(t, principal, serviceDID) =>
      if t in s.calls || t in s.flight.phases || principal == "" || serviceDID == "" then s
      else s.(calls := s.calls[t := Call(principal, serviceDID)],
              flight := F.Arrive(s.flight, t, ScopeKey(principal, serviceDID)))
    case Look(t) =>
      if F.IsReady(s.flight, t) then ApplyLook(s, t) else s
    case Wake(t) =>
      if F.CanWake(s.flight, t) then s.(flight := F.Wake(s.flight, t)) else s
    case Cancel(t) =>
      if F.CanLeave(s.flight, t) then Answering(s, t, Failed).(flight := F.Leave(s.flight, t)) else s
    case Return(t, outcome) =>
      if t in s.calls && F.IsRunning(s.flight, t) then ApplyReturn(s, t, outcome) else s
    case Update(id, status, at) =>
      if !IsManagedAgentStatus(status) || at == ZERO_TIME then s
      else s.(tables := UpdateStatus(s.tables, id, status, at))
  }

  function After(run: seq<Step>): State {
    if run == [] then START else Apply(After(run[..|run| - 1]), run[|run| - 1])
  }

  // ------------------------------------------------------------ invariant

  /** The single-flight key of a call is its scope. */
  ghost predicate Keyed(s: State) {
    && F.Inv(s.flight)
    && s.calls.Keys == s.flight.keys.Keys
    && (forall t :: t in s.calls ==> s.flight.keys[t] == Key(s.calls[t]))
  }

  /** An answered call names the one identity of its scope. */
  ghost predicate Stands(calls: map<CallId, Call>, tables: Tables, t: CallId, answer: Answer) {
    answer.Failed? ||
    (&& t in calls
     && var r := answer.record; var key := Key(calls[t]);
        && key in tables.byScope && tables.byScope[key] == r.agentIdentityID
        && r.agentIdentityID in tables.records
        && SameIdentity(r, tables.records[r.agentIdentityID])
        && Scope(r) == key)
  }

  ghost predicate Answered(calls: map<CallId, Call>, tables: Tables, answers: map<CallId, Answer>) {
    && (forall t :: t in answers ==> Stands(calls, tables, t, answers[t]))
    // Nobody else created for the scope of a call that created.
    && (forall t, u | t in answers && u in answers && answers[t].Created? && answers[u].Created? ::
          Key(calls[t]) == Key(calls[u]) ==> t == u)
  }

  ghost predicate Inv(s: State) {
    && Indexed(s.tables)
    && Keyed(s)
    // A scope with a pending creation has no identity.
    && (forall k :: k in s.flight.pending ==> k !in s.tables.byScope)
    && Answered(s.calls, s.tables, s.answers)
  }

  /** Answers survive any extension of the tables. */
  lemma AnsweredSurvives(calls: map<CallId, Call>, more: map<CallId, Call>, t: Tables, u: Tables, answers: map<CallId, Answer>)
    requires Answered(calls, t, answers) && Extends(t, u)
    requires forall c :: c in calls ==> c in more && more[c] == calls[c]
    ensures Answered(more, u, answers)
  {
    forall c | c in answers ensures Stands(more, u, c, answers[c]) {
      assert Stands(calls, t, c, answers[c]);
    }
    forall a, b | a in answers && b in answers && answers[a].Created? && answers[b].Created?
      ensures Key(more[a]) == Key(more[b]) ==> a == b
    {
      assert Stands(calls, t, a, answers[a]) && Stands(calls, t, b, answers[b]);
    }
  }

  lemma AnsweredExtends(calls: map<CallId, Call>, tables: Tables, answers: map<CallId, Answer>, t: CallId, answer: Answer)
    requires Answered(calls, tables, answers) && Stands(calls, tables, t, answer)
    requires answer.Created? ==>
               forall u :: u in answers && answers[u].Created? ==> u in calls && Key(calls[u]) != Key(calls[t])
    ensures Answered(calls, tables, answers[t := answer])
  {
    forall u | u in answers && answers[u].Created? ensures u in calls {
      assert Stands(calls, tables, u, answers[u]);
    }
  }

  lemma LookKeepsInv(s: State, t: CallId)
    requires Inv(s) && F.IsReady(s.flight, t)
    ensures Inv(ApplyLook(s, t)) && ApplyLook(s, t).tables == s.tables
  {
    var s' := ApplyLook(s, t);
    F.StepKeepsInv(s.flight, s'.flight, t);
    NamesAreNotEmpty(s.tables);
    var key := s.flight.keys[t];
    var entry := Enter(s.tables, s.flight.pending, key);
    if entry.Found? {
      assert Stands(s.calls, s.tables, t, Existing(entry.record)) by {
        assert forall k :: k in s.tables.byScope ==> ByScope(s.tables.records[s.tables.byScope[k]]) == k;
      }
      AnsweredExtends(s.calls, s.tables, s.answers, t, Existing(entry.record));
    }
  }

  lemma CreatorIsToldTheTruth(calls: map<CallId, Call>, tables: Tables, t: CallId, outcome: Result<IdentityRecord>)
    requires t in calls
    ensures Stands(calls, Commit(tables, calls[t].principal, calls[t].serviceDID, outcome), t, Told(tables, calls[t], outcome))
  {
  }

  lemma FinishIsKeyed(s: State, t: CallId)
    requires Keyed(s) && t in s.calls && F.IsRunning(s.flight, t)
    ensures Keyed(s.(flight := F.Finish(s.flight, t))) && Key(s.calls[t]) in s.flight.pending
    ensures F.Finish(s.flight, t).pending == s.flight.pending - {Key(s.calls[t])}
  {
    F.StepKeepsInv(s.flight, F.Finish(s.flight, t), t);
  }

  lemma CommitTouchesOneScope(t: Tables, c: Call, outcome: Result<IdentityRecord>)
    ensures Commit(t, c.principal, c.serviceDID, outcome).byScope.Keys <= t.byScope.Keys + {Key(c)}
  {
  }

  lemma ReturnKeepsInv(s: State, t: CallId, outcome: Result<IdentityRecord>)
    requires Inv(s) && t in s.calls && F.IsRunning(s.flight, t)
    ensures Inv(ApplyReturn(s, t, outcome)) && Extends(s.tables, ApplyReturn(s, t, outcome).tables)
  {
    hide Indexed, Extends, F.Inv, F.Finish, Answered, Stands, Commit, Told;
    var c := s.calls[t];
    FinishIsKeyed(s, t);
    CreatorIsToldTheTruth(s.calls, s.tables, t, outcome);
    CommitKeepsIndexed(s.tables, c.principal, c.serviceDID, outcome);
    CommitTouchesOneScope(s.tables, c, outcome);
    CreatedIsNew(s, t, Commit(s.tables, c.principal, c.serviceDID, outcome), Told(s.tables, c, outcome));
  }

  /** The call that leaves its creation is the first to create in its scope. */
  lemma CreatedIsNew(s: State, t: CallId, u: Tables, answer: Answer)
    requires Answered(s.calls, s.tables, s.answers) && Extends(s.tables, u)
    requires t in s.calls && Key(s.calls[t]) !in s.tables.byScope
    requires Stands(s.calls, u, t, answer)
    ensures Answered(s.calls, u, s.answers[t := answer])
  {
    AnsweredSurvives(s.calls, s.calls, s.tables, u, s.answers);
    forall v | v in s.answers && s.answers[v].Created? ensures v in s.calls && Key(s.calls[v]) != Key(s.calls[t]) {
      assert Stands(s.calls, s.tables, v, s.answers[v]);
    }
    AnsweredExtends(s.calls, u, s.answers, t, answer);
  }

  lemma InvokeKeepsInv(s: State, t: CallId, principal: string, serviceDID: string)
    requires Inv(s) && t !in s.calls && t !in s.flight.phases
    ensures Inv(s.(calls := s.calls[t := Call(principal, serviceDID)],
                   flight := F.Arrive(s.flight, t, ScopeKey(principal, serviceDID))))
  {
    hide Indexed;
    F.ArriveKeepsInv(s.flight, t, ScopeKey(principal, serviceDID));
    AnsweredSurvives(s.calls, s.calls[t := Call(principal, serviceDID)], s.tables, s.tables, s.answers);
  }

  lemma WakeKeepsInv(s: State, t: CallId)
    requires Inv(s) && F.CanWake(s.flight, t)
    ensures Inv(s.(flight := F.Wake(s.flight, t)))
  {
    F.StepKeepsInv(s.flight, F.Wake(s.flight, t), t);
  }

  lemma CancelKeepsInv(s: State, t: CallId)
    requires Inv(s) && F.CanLeave(s.flight, t)
    ensures Inv(Answering(s, t, Failed).(flight := F.Leave(s.flight, t)))
  {
    hide Indexed, Answered;
    F.StepKeepsInv(s.flight, F.Leave(s.flight, t), t);
    AnsweredExtends(s.calls, s.tables, s.answers, t, Failed);
  }

  lemma StatusKeepsInv(s: State, id: string, status: ManagedAgentStatus, at: Time)
    requires Inv(s) && IsManagedAgentStatus(status) && at != ZERO_TIME
    ensures Inv(s.(tables := UpdateStatus(s.tables, id, status, at)))
    ensures Extends(s.tables, UpdateStatus(s.tables, id, status, at))
  {
    UpdateKeepsIndexed(s.tables, id, status, at);
    AnsweredSurvives(s.calls, s.calls, s.tables, UpdateStatus(s.tables, id, status, at), s.answers);
  }

  lemma ApplyKeepsInv(s: State, step: Step)
    requires Inv(s)
    ensures Inv(Apply(s, step)) && Extends(s.tables, Apply(s, step).tables)
  {
    ExtendsReflexive(s.tables);
    hide Indexed, Answered, Keyed, ApplyLook, ApplyReturn, UpdateStatus, Extends;
    if Apply(s, step) != s {
      match step
      case Invoke(t, principal, serviceDID) => InvokeKeepsInv(s, t, principal, serviceDID);
      case Look(t) => LookKeepsInv(s, t);
      case Wake(t) => WakeKeepsInv(s, t);
      case Cancel(t) => CancelKeepsInv(s, t);
      case Return(t, outcome) => ReturnKeepsInv(s, t, outcome);
      case Update(id, status, at) => StatusKeepsInv(s, id, status, at);
    }
  }

  // -------------------------------------------------------------- theorems

  lemma AfterStep(run: seq<Step>, step: Step)
    ensures After(run + [step]) == Apply(After(run), step)
  {
    assert (run + [step])[..|run + [step]| - 1] == run;
  }

  /** Safety of every interleaving. */
  lemma {:induction false} RunKeepsInv(run: seq<Step>)
    ensures Inv(After(run))
  {
    if run != [] {
      RunKeepsInv(run[..|run| - 1]);
      ApplyKeepsInv(After(run[..|run| - 1]), run[|run| - 1]);
    } else {
      F.EmptyInv<string>();
    }
  }

  /** While a creation is pending for a scope, no record has that scope. */
  lemma PendingScopeHasNoIdentity(run: seq<Step>, t: CallId)
    requires F.IsRunning(After(run).flight, t)
    ensures forall id :: id in After(run).tables.records ==>
              Scope(After(run).tables.records[id]) != After(run).flight.keys[t]
  {
    RunKeepsInv(run);
    var tables := After(run).tables;
    assert forall id :: id in tables.records ==> ByScope(tables.records[id]) in tables.byScope;
  }

  /** At most one identity per (principal, Service DID), in every interleaving. */
  lemma OneIdentityPerScope(run: seq<Step>, a: string, b: string)
    requires a in After(run).tables.records && b in After(run).tables.records
    requires After(run).tables.records[a].principal == After(run).tables.records[b].principal
    requires After(run).tables.records[a].serviceDID == After(run).tables.records[b].serviceDID
    ensures a == b
  {
    RunKeepsInv(run);
    if a != b {
      IndexesAreInjective(After(run).tables, a, b);
    }
  }

  /** Once stored, an identity keeps its names, its owner and its scope entry for
      the rest of the run; only its lifecycle changes. */
  lemma {:induction false} IdentitiesPersist(run: seq<Step>, more: seq<Step>)
    ensures Extends(After(run).tables, After(run + more).tables)
  {
    if more == [] {
      assert run + more == run;
    } else {
      var n := |more| - 1;
      IdentitiesPersist(run, more[..n]);
      assert run + more == (run + more[..n]) + [more[n]];
      StepExtends(run + more[..n], more[n]);
      ExtendsTransitive(After(run).tables, After(run + more[..n]).tables, After(run + more).tables);
    }
  }

  lemma StepExtends(run: seq<Step>, step: Step)
    ensures Extends(After(run).tables, After(run + [step]).tables)
  {
    RunKeepsInv(run);
    AfterStep(run, step);
    ApplyKeepsInv(After(run), step);
  }

  ghost predicate Succeeded(s: State, t: CallId) {
    t in s.answers && t in s.calls && !s.answers[t].Failed?
  }

  /** Agreement: successful calls for one scope all name the same identity, and at
      most one of them is told that it created it. */
  lemma CallsAgree(run: seq<Step>, t: CallId, u: CallId)
    requires var s := After(run); Succeeded(s, t) && Succeeded(s, u) && s.calls[t] == s.calls[u]
    ensures var s := After(run);
            && SameIdentity(s.answers[t].record, s.answers[u].record)
            && (s.answers[t].Created? && s.answers[u].Created? ==> t == u)
  {
    RunKeepsInv(run);
    var s := After(run);
    assert Stands(s.calls, s.tables, t, s.answers[t]) && Stands(s.calls, s.tables, u, s.answers[u]);
  }

  /** Provision lets only checked Service DIDs through to the store. */
  ghost predicate Checked(run: seq<Step>) {
    forall step | step in run :: step.Invoke? ==> IsDID(step.serviceDID)
  }

  ghost predicate OnlyDIDs(s: State) {
    && (forall t :: t in s.calls ==> IsDID(s.calls[t].serviceDID))
    && (forall id :: id in s.tables.records ==> IsDID(s.tables.records[id].serviceDID))
  }

  lemma ApplyKeepsOnlyDIDs(s: State, step: Step)
    requires OnlyDIDs(s) && (step.Invoke? ==> IsDID(step.serviceDID))
    ensures OnlyDIDs(Apply(s, step))
  {
    hide IsDID, ValidRecord;
  }

  lemma {:induction false} CheckedRunsHoldOnlyDIDs(run: seq<Step>)
    requires Checked(run)
    ensures OnlyDIDs(After(run))
  {
    if run != [] {
      hide IsDID, Apply;
      var n := |run| - 1;
      CheckedRunsHoldOnlyDIDs(run[..n]);
      assert run[n] in run;
      ApplyKeepsOnlyDIDs(After(run[..n]), run[n]);
    }
  }

  /** A call never receives another principal's or another Service's identity, as
      long as the Service DIDs in play passed the Platform's DID check. */
  lemma AnswersStayInScope(run: seq<Step>, t: CallId)
    requires Checked(run) && Succeeded(After(run), t)
    ensures var s := After(run);
            && s.answers[t].record.principal == s.calls[t].principal
            && s.answers[t].record.serviceDID == s.calls[t].serviceDID
  {
    RunKeepsInv(run);
    CheckedRunsHoldOnlyDIDs(run);
    var s := After(run);
    assert Stands(s.calls, s.tables, t, s.answers[t]);
    var r, c := s.answers[t].record, s.calls[t];
    assert SameIdentity(r, s.tables.records[r.agentIdentityID]);
    ScopeKeyInjective(r.principal, r.serviceDID, c.principal, c.serviceDID);
  }

  /** No waiter is lost, and each one waits for a creation of its own scope. */
  lemma ParkedCallsHaveALiveCreator(run: seq<Step>, t: CallId)
    requires F.IsParked(After(run).flight, t)
    ensures var f := After(run).flight;
            F.CanWake(f, t) || (F.IsRunning(f, f.phases[t].channel) && f.keys[f.phases[t].channel] == f.keys[t])
  {
    RunKeepsInv(run);
    F.NoLostWaiter(After(run).flight, t);
  }

  /** Without new arrivals every step that moves a call spends budget, so each
      call is answered after boundedly many steps once creations return. */
  lemma StepsSpendBudget(run: seq<Step>, step: Step)
    requires !step.Invoke?
    ensures var f, g := After(run).flight, After(run + [step]).flight;
            g == f || (F.Moves(f, g) && F.Budget(g) < F.Budget(f))
  {
    RunKeepsInv(run);
    AfterStep(run, step);
    var f, g := After(run).flight, After(run + [step]).flight;
    if g != f {
      MovesAreFlightSteps(After(run), step);
      F.StepSpends(f, g, step.call);
    }
  }

  lemma MovesAreFlightSteps(s: State, step: Step)
    requires !step.Invoke? && Apply(s, step).flight != s.flight
    ensures !step.Update? && F.Step(s.flight, Apply(s, step).flight, step.call)
  {
  }

  // ------------------------------------------------- what each step is told

  ghost predicate Ended(f: F.Flight<string>, answers: map<CallId, Answer>) {
    && (forall t :: t in answers ==> t in f.phases)
    && (forall t :: t in f.phases ==> (f.phases[t].Finished? <==> t in answers))
  }

  lemma ApplyKeepsEnded(s: State, step: Step)
    requires Ended(s.flight, s.answers) && s.flight.phases.Keys == s.flight.keys.Keys
    ensures var s' := Apply(s, step);
            && Ended(s'.flight, s'.answers)
            && forall t :: t in s.answers ==> t in s'.answers && s'.answers[t] == s.answers[t]
  {
    hide Commit, Told, ScopeKey, Enter, UpdateStatus, IsManagedAgentStatus;
  }

  /** A call has ended exactly if it was answered; so nobody is dropped, and once every
      call has ended every call has its answer. */
  lemma {:induction false} EndedMeansAnswered(run: seq<Step>)
    ensures Ended(After(run).flight, After(run).answers)
  {
    if run != [] {
      hide Ended, Apply, Inv;
      var n := |run| - 1;
      EndedMeansAnswered(run[..n]);
      RunKeepsInv(run[..n]);
      PhasesAreKeyed(After(run[..n]));
      ApplyKeepsEnded(After(run[..n]), run[n]);
    }
  }

  lemma PhasesAreKeyed(s: State)
    requires Inv(s)
    ensures s.flight.phases.Keys == s.flight.keys.Keys == s.calls.Keys
    ensures forall t :: t in s.calls ==> s.flight.keys[t] == Key(s.calls[t])
  {
    hide Indexed, Answered;
  }

  /** A new call gets ready to look, exactly if it names a principal and a Service DID. */
  lemma ArrivalsAreReady(run: seq<Step>, t: CallId, principal: string, serviceDID: string)
    requires t !in After(run).calls
    ensures var s := After(run + [Invoke(t, principal, serviceDID)]);
            if principal != "" && serviceDID != ""
            then F.IsReady(s.flight, t) && t in s.calls && s.calls[t] == Call(principal, serviceDID)
            else s == After(run)
  {
    RunKeepsInv(run);
    PhasesAreKeyed(After(run));
    AfterStep(run, Invoke(t, principal, serviceDID));
    hide ScopeKey, Inv;
  }

  /** A call that is not creating may give up at any time; that stores nothing. */
  lemma CancellationsEnd(run: seq<Step>, t: CallId)
    requires F.IsReady(After(run).flight, t) || F.IsParked(After(run).flight, t)
    ensures var s := After(run + [Cancel(t)]); t in s.answers && s.answers[t] == Failed && s.tables == After(run).tables
  {
    AfterStep(run, Cancel(t));
    hide After, ApplyLook, ApplyReturn, UpdateStatus, ScopeKey;
  }

  ghost predicate IsCreating(s: State, u: CallId, scope: string) {
    F.IsRunning(s.flight, u) && u in s.calls && Key(s.calls[u]) == scope
  }

  ghost predicate HasRecord(s: State, scope: string, id: string) {
    id in s.tables.records && Scope(s.tables.records[id]) == scope
  }

  /** What a look under the lock comes to, in terms of the records and the other calls:
      the record of the scope if there is one, otherwise a wait for the call that is
      creating it, otherwise the call creates. */
  lemma LooksDecide(run: seq<Step>, t: CallId)
    requires F.IsReady(After(run).flight, t)
    ensures var s, s' := After(run), After(run + [Look(t)]);
            && t in s.calls
            && var scope := Key(s.calls[t]);
               && s'.tables == s.tables
               && (forall id :: HasRecord(s, scope, id) ==> t in s'.answers && s'.answers[t] == Existing(s.tables.records[id]))
               && ((forall id :: !HasRecord(s, scope, id)) ==>
                     && (forall u :: IsCreating(s, u, scope) ==> F.IsParked(s'.flight, t) && s'.flight.phases[t].channel == u)
                     && ((forall u :: !IsCreating(s, u, scope)) ==> F.IsRunning(s'.flight, t)))
  {
    RunKeepsInv(run);
    AfterStep(run, Look(t));
    var s := After(run);
    PhasesAreKeyed(s);
    var scope := Key(s.calls[t]);
    ScopesAreIndexed(s, scope);
    CreatorsArePending(s, scope);
    LookIs(s, t);
    hide Inv, Scope, Key, FindBy, Apply;
  }

  lemma LookIs(s: State, t: CallId)
    requires F.IsReady(s.flight, t)
    ensures var s', key := Apply(s, Look(t)), s.flight.keys[t];
            var found := FindBy(s.tables.records, s.tables.byScope, key);
            && s'.tables == s.tables && s'.flight.keys == s.flight.keys
            && (found.Some? ==> s'.answers == s.answers[t := Existing(found.value)])
            && (found.None? && key in s.flight.pending ==> s'.flight.phases == s.flight.phases[t := F.Parked(s.flight.pending[key])])
            && (found.None? && key !in s.flight.pending ==> s'.flight.phases == s.flight.phases[t := F.Running])
  {
    hide FindBy;
  }

  lemma ScopesAreIndexed(s: State, scope: string)
    requires Inv(s)
    ensures var found := FindBy(s.tables.records, s.tables.byScope, scope);
            if found.Some? then HasRecord(s, scope, found.value.agentIdentityID) && s.tables.records[found.value.agentIdentityID] == found.value
            else forall id :: !HasRecord(s, scope, id)
    ensures forall a, b :: HasRecord(s, scope, a) && HasRecord(s, scope, b) ==> a == b
  {
    LookupsAgreeWithRecords(s.tables.records, s.tables.byScope, ByScope, scope);
    InvIndexed(s);
    assert forall id :: id in s.tables.records ==> ByScope(s.tables.records[id]) == Scope(s.tables.records[id]);
    hide Inv, Indexed, FindBy, Scope, ByScope;
    forall a, b | HasRecord(s, scope, a) && HasRecord(s, scope, b) ensures a == b {
      ScopesAreUnique(s.tables, a, b);
    }
  }

  lemma ScopesAreUnique(t: Tables, a: string, b: string)
    requires Indexed(t) && a in t.records && b in t.records && Scope(t.records[a]) == Scope(t.records[b])
    ensures a == b
  {
    if a != b { IndexesAreInjective(t, a, b); }
  }

  lemma CreatorsArePending(s: State, scope: string)
    requires Inv(s)
    ensures forall u :: IsCreating(s, u, scope) ==> scope in s.flight.pending && s.flight.pending[scope] == u
    ensures (forall u :: !IsCreating(s, u, scope)) ==> scope !in s.flight.pending
  {
    hide Indexed, Answered, ScopeKey;
    if scope in s.flight.pending {
      assert IsCreating(s, s.flight.pending[scope], scope);
    }
  }

  /** A record is new if nothing it is found by is taken. */
  ghost predicate IsNew(records: map<string, IdentityRecord>, r: IdentityRecord) {
    forall id :: id in records ==> id != r.agentIdentityID && records[id].agentDID != r.agentDID && records[id].agentDIDID != r.agentDIDID
  }

  /** A creation succeeds exactly with a valid record of its own scope that is new; it
      then adds that record and nothing else, and otherwise changes no record. */
  lemma CreationsSucceedExactly(run: seq<Step>, t: CallId, outcome: Result<IdentityRecord>)
    requires F.IsRunning(After(run).flight, t)
    ensures var s, s' := After(run), After(run + [Return(t, outcome)]);
            && t in s.calls && t in s'.answers
            && if && outcome.Ok? && ValidRecord(outcome.value) && IsNew(s.tables.records, outcome.value)
                  && outcome.value.principal == s.calls[t].principal && outcome.value.serviceDID == s.calls[t].serviceDID
               then s'.answers[t] == Created(outcome.value) && s'.tables.records == s.tables.records[outcome.value.agentIdentityID := outcome.value]
               else s'.answers[t].Failed? && s'.tables == s.tables
  {
    RunKeepsInv(run);
    AfterStep(run, Return(t, outcome));
    var s := After(run);
    PhasesAreKeyed(s);
    InvIndexed(s);
    AdmitsExactly(s.tables, s.calls[t], outcome);
    ReturnIs(s, t, outcome);
    hide Inv, Indexed, ValidRecord, Admit, IsNew, Scope, Apply;
  }

  lemma ReturnIs(s: State, t: CallId, outcome: Result<IdentityRecord>)
    requires t in s.calls && F.IsRunning(s.flight, t)
    ensures var s', c := Apply(s, Return(t, outcome)), s.calls[t];
            && s'.tables == Commit(s.tables, c.principal, c.serviceDID, outcome)
            && s'.answers == s.answers[t := Told(s.tables, c, outcome)]
  {
    hide Commit, Told, F.Finish;
  }

  lemma InvIndexed(s: State)
    requires Inv(s)
    ensures Indexed(s.tables)
  {
  }

  lemma AdmitsExactly(t: Tables, c: Call, outcome: Result<IdentityRecord>)
    requires Indexed(t)
    ensures var admitted := Admit(t, c.principal, c.serviceDID, outcome);
            && (admitted.Ok? ==> admitted == outcome)
            && (admitted.Ok? <==>
                  && outcome.Ok? && ValidRecord(outcome.value) && IsNew(t.records, outcome.value)
                  && outcome.value.principal == c.principal && outcome.value.serviceDID == c.serviceDID)
  {
    if outcome.Ok? {
      MaterialIsIndexed(t, outcome.value);
    }
    hide ValidRecord, Read, IsNew, Indexed;
  }

  lemma MaterialIsIndexed(t: Tables, r: IdentityRecord)
    requires Indexed(t)
    ensures IsNew(t.records, r) <==> r.agentIdentityID !in t.records && Read(t.byAgentDID, r.agentDID) == "" && Read(t.byAgentDIDID, r.agentDIDID) == ""
  {
    NamesAreNotEmpty(t);
    assert forall id :: id in t.records ==> t.byAgentDID[ByAgentDID(t.records[id])] == id;
    assert forall id :: id in t.records ==> t.byAgentDIDID[ByAgentDIDID(t.records[id])] == id;
    hide ValidRecord;
    if r.agentDID in t.byAgentDID {
      assert ByAgentDID(t.records[t.byAgentDID[r.agentDID]]) == r.agentDID;
    }
    if r.agentDIDID in t.byAgentDIDID {
      assert ByAgentDIDID(t.records[t.byAgentDIDID[r.agentDIDID]]) == r.agentDIDID;
    }
  }

  /** A lifecycle update of this identity that the store does not refuse. */
  predicate Updates(step: Step, id: string) {
    step.Update? && step.id == id && !step.status.Unknown? && step.at != ZERO_TIME
  }

  lemma OtherStepsKeepTheRecord(s: State, step: Step, id: string)
    requires id in s.tables.records && !Updates(step, id)
    ensures var s' := Apply(s, step); id in s'.tables.records && s'.tables.records[id] == s.tables.records[id]
  {
    hide ValidRecord, ScopeKey;
  }

  /** Without such an update a stored record stays what it is, whatever else happens. */
  lemma {:induction false} RecordsStay(run: seq<Step>, more: seq<Step>, id: string)
    requires id in After(run).tables.records && forall step | step in more :: !Updates(step, id)
    ensures id in After(run + more).tables.records && After(run + more).tables.records[id] == After(run).tables.records[id]
  {
    if more == [] {
      assert run + more == run;
    } else {
      hide Apply, Updates;
      var n := |more| - 1;
      RecordsStay(run, more[..n], id);
      assert run + more == (run + more[..n]) + [more[n]];
      AfterStep(run + more[..n], more[n]);
      assert more[n] in more;
      OtherStepsKeepTheRecord(After(run + more[..n]), more[n], id);
    }
  }

  /** An update takes effect, and its status is the identity's until the next one. */
  lemma UpdatesTakeEffect(run: seq<Step>, id: string, status: ManagedAgentStatus, at: Time, more: seq<Step>)
    requires id in After(run).tables.records && !status.Unknown? && at != ZERO_TIME
    requires forall step | step in more :: !Updates(step, id)
    ensures var r, s := After(run).tables.records[id], After(run + [Update(id, status, at)] + more);
            id in s.tables.records && s.tables.records[id] == r.(status := status, updatedAt := at)
  {
    AfterStep(run, Update(id, status, at));
    RecordsStay(run + [Update(id, status, at)], more, id);
  }

  // ------------------------------------------------- why the DID check matters

  /** Two unchecked Service DIDs share a key, and the second caller receives the
      first caller's identity. */
  lemma UncheckedScopesCanLeak(r: IdentityRecord)
    requires ValidRecord(r) && r.principal == "a" && r.serviceDID == "b" + NUL + "c"
    ensures exists run: seq<Step> ::
              && 1 in After(run).answers && After(run).answers[1] == Existing(r)
              && 1 in After(run).calls && After(run).calls[1].principal != r.principal
  {
    var run := FirstCaller(r);
    var later := run + [Invoke(1, "a" + NUL + "b", "c")];
    AfterStep(run, Invoke(1, "a" + NUL + "b", "c"));
    AfterStep(later, Look(1));
    assert ScopeKey("a", "b" + NUL + "c") == ScopeKey("a" + NUL + "b", "c");
    assert After(later + [Look(1)]).answers[1] == Existing(r);
    assert |"a" + NUL + "b"| != |"a"|;
  }

  /** The first caller creates and stores its identity. */
  lemma FirstCaller(r: IdentityRecord) returns (run: seq<Step>)
    requires ValidRecord(r) && r.principal == "a" && r.serviceDID == "b" + NUL + "c"
    ensures var s := After(run);
            && 1 !in s.calls && 1 !in s.flight.phases
            && s.tables.byScope == map[Scope(r) := r.agentIdentityID] && s.tables.records == map[r.agentIdentityID := r]
  {
    var r1 := [] + [Invoke(0, "a", "b" + NUL + "c")];
    AfterStep([], Invoke(0, "a", "b" + NUL + "c"));
    var r2 := r1 + [Look(0)];
    AfterStep(r1, Look(0));
    run := r2 + [Return(0, Ok(r))];
    AfterStep(r2, Return(0, Ok(r)));
  }
}
