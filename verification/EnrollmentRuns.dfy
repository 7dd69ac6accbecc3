/** Every interleaving of Enroll calls on one enrollment store.

An Enroll call first reads the store.  Without a record it goes through
FindOrCreateEnrollment; with one it decides an update from the snapshot it read,
which may be stale by the time it is saved.  The step SaveOutside lets code other
than the Service's commands save any valid record; some theorems ask that it starts
from the stored enrollment.  */
module EnrollmentRuns {
  import opened Prelude
  import opened Enrollment
  import opened EnrollmentStore
  import F = Flights

  type CallId = F.CallId

  /** What a call does next when it is ready. */
  datatype Job =
    | Reading(request: Request)
    | Creating(request: Request)
    | Updating(request: Request, snapshot: Record)
    | Saving(record: Record)

  datatype Answer =
    | Created(record: Record)
    | Existing(record: Record)      // found by FindOrCreateEnrollment, or left unchanged by the policy
    | Saved(record: Record)
    | Failed

  datatype State = State(
    table: Table,
    flight: F.Flight<string>,
    jobs: map<CallId, Job>,
    answers: map<CallId, Answer>)

  datatype Step =
    | Invoke(call: CallId, request: Request)
    | SaveOutside(call: CallId, record: Record)
    | Read(call: CallId)
    | Settle(call: CallId, decision: Decision, now: Time)
    | Look(call: CallId)
    | Save(call: CallId)
    | Wake(call: CallId)
    | Cancel(call: CallId)
    | Return(call: CallId, outcome: Result<Record>)

  const START := State(map[], F.Empty(), map[], map[])

  function Agent(job: Job): string {
    if job.Saving? then job.record.agentDID else job.request.agentDID
  }

  function Answering(s: State, t: CallId, answer: Answer): State
    requires F.CanLeave(s.flight, t)
  {
    s.(answers := s.answers[t := answer], flight := F.Leave(s.flight, t))
  }

  predicate At(s: State, t: CallId) {
    F.IsReady(s.flight, t) && t in s.jobs && s.flight.keys[t] == Agent(s.jobs[t])
  }

  function ApplyRead(s: State, t: CallId): State
    requires At(s, t) && s.jobs[t].Reading?
  {
    var request := s.jobs[t].request;
    s.(jobs := s.jobs[t := if request.agentDID in s.table then Updating(request, s.table[request.agentDID]) else Creating(request)])
  }

  ghost function ApplySettle(config: Config, s: State, t: CallId, decision: Decision, now: Time): State
    requires At(s, t) && s.jobs[t].Updating?
  {
    var snapshot := s.jobs[t].snapshot;
    match Decide(config, s.jobs[t].request, snapshot, decision, now)
    case Save(record) => if ValidRecord(record) then s.(jobs := s.jobs[t := Saving(record)]) else Answering(s, t, Failed)
    case Unchanged => Answering(s, t, Existing(snapshot))
    case _ => Answering(s, t, Failed)
  }

  function ApplyLook(s: State, t: CallId): State
    requires At(s, t) && s.jobs[t].Creating?
  {
    match EnterCreate(s.table, s.flight.pending, Agent(s.jobs[t]))
    case Found(record) => Answering(s, t, Existing(record))
    case Wait(_) => s.(flight := F.Park(s.flight, t))
    case Open => s.(flight := F.Begin(s.flight, t))
  }

  function ApplySave(s: State, t: CallId): State
    requires At(s, t) && s.jobs[t].Saving?
  {
    var record := s.jobs[t].record;
    if EnterSave(s.flight.pending, record.agentDID).Wait? then s.(flight := F.Park(s.flight, t))
    else Answering(s, t, Saved(record)).(table := s.table[record.agentDID := record])
  }

  function Told(agentDID: string, outcome: Result<Record>): Answer {
    var admitted := Admit(agentDID, outcome);
    if admitted.Ok? then Created(admitted.value) else Failed
  }

  function ApplyReturn(s: State, t: CallId, outcome: Result<Record>): State
    requires F.IsRunning(s.flight, t)
  {
    var agentDID := s.flight.keys[t];
    State(Commit(s.table, agentDID, outcome), F.Finish(s.flight, t), s.jobs, s.answers[t := Told(agentDID, outcome)])
  }

  function Starting(s: State, t: CallId, job: Job): State
    requires t !in s.flight.phases
  {
    s.(jobs := s.jobs[t := job], flight := F.Arrive(s.flight, t, Agent(job)))
  }

  ghost function Apply(config: Config, s: State, step: Step): State {
    match step
    case Invoke(t, request) =>
      if t in s.jobs || t in s.flight.phases || request.agentDID == "" then s else Starting(s, t, Reading(request))
    case SaveOutside(t, record) =>
      if t in s.jobs || t in s.flight.phases || !ValidRecord(record) then s else Starting(s, t, Saving(record))
    case Read(t) =>
      if At(s, t) && s.jobs[t].Reading? then ApplyRead(s, t) else s
    case Settle(t, decision, now) =>
      if At(s, t) && s.jobs[t].Updating? then ApplySettle(config, s, t, decision, now) else s
    case Look(t) =>
      if At(s, t) && s.jobs[t].Creating? then ApplyLook(s, t) else s
    case Save(t) =>
      if At(s, t) && s.jobs[t].Saving? then ApplySave(s, t) else s
    case Wake(t) =>
      if F.CanWake(s.flight, t) then s.(flight := F.Wake(s.flight, t)) else s
    case Cancel(t) =>
      if F.CanLeave(s.flight, t) then Answering(s, t, Failed) else s
    case Return(t, outcome) =>
      if F.IsRunning(s.flight, t) then ApplyReturn(s, t, outcome) else s
  }

  ghost function After(config: Config, run: seq<Step>): State {
    if run == [] then START else Apply(config, After(config, run[..|run| - 1]), run[|run| - 1])
  }

  // ------------------------------------------------------------ invariant

  ghost predicate Keyed(f: F.Flight<string>, jobs: map<CallId, Job>) {
    && F.Inv(f)
    && jobs.Keys == f.keys.Keys
    && (forall t :: t in jobs ==> f.keys[t] == Agent(jobs[t]))
  }

  /** An agent whose enrollment is being created has no record. */
  ghost predicate Free(f: F.Flight<string>, table: Table) {
    forall k :: k in f.pending ==> k !in table
  }

  /** What a call is about to save is valid, and a snapshot is about its own agent. */
  ghost predicate Ready(jobs: map<CallId, Job>) {
    forall t :: t in jobs ==>
      && (jobs[t].Saving? ==> ValidRecord(jobs[t].record))
      && (jobs[t].Updating? ==> jobs[t].snapshot.agentDID == jobs[t].request.agentDID)
  }

  /** Holds in every run, whatever is saved from outside. */
  ghost predicate Inv(s: State) {
    && Keyed(s.flight, s.jobs)
    && Free(s.flight, s.table)
    && Stored(s.table)
    && Ready(s.jobs)
  }

  ghost predicate Names(table: Table, record: Record) {
    record.agentDID in table && SameEnrollment(record, table[record.agentDID])
  }

  /** Every snapshot, every record about to be saved and every answer names the
      stored enrollment of its agent, however stale its other fields are. */
  ghost predicate Faithful(table: Table, jobs: map<CallId, Job>, answers: map<CallId, Answer>) {
    && (forall t :: t in jobs && jobs[t].Updating? ==> Names(table, jobs[t].snapshot))
    && (forall t :: t in jobs && jobs[t].Saving? ==> Names(table, jobs[t].record))
    && (forall t :: t in answers && !answers[t].Failed? ==> Names(table, answers[t].record))
  }

  ghost predicate Extends(t: Table, u: Table) {
    forall did :: did in t ==> did in u && SameEnrollment(t[did], u[did])
  }

  // ------------------------------------------------- each part is kept

  lemma StepKeepsKeyed(f: F.Flight<string>, g: F.Flight<string>, jobs: map<CallId, Job>, t: CallId)
    requires Keyed(f, jobs) && F.Step(f, g, t)
    ensures Keyed(g, jobs)
  {
    F.StepKeepsInv(f, g, t);
  }

  lemma LeaveKeepsFree(f: F.Flight<string>, table: Table, t: CallId)
    requires Free(f, table) && F.CanLeave(f, t)
    ensures Free(F.Leave(f, t), table) && F.Step(f, F.Leave(f, t), t)
  {
  }

  lemma AnswerKeepsInv(s: State, t: CallId, answer: Answer)
    requires Inv(s) && F.CanLeave(s.flight, t)
    ensures Inv(Answering(s, t, answer))
  {
    hide Keyed, Free, Stored, Ready, F.Step, F.Leave;
    LeaveKeepsFree(s.flight, s.table, t);
    StepKeepsKeyed(s.flight, F.Leave(s.flight, t), s.jobs, t);
  }

  lemma ArriveKeepsInv(s: State, t: CallId, job: Job)
    requires Inv(s) && t !in s.jobs && t !in s.flight.phases && !job.Updating? && (job.Saving? ==> ValidRecord(job.record))
    ensures Inv(Starting(s, t, job))
  {
    hide ValidRecord, Stored;
    F.ArriveKeepsInv(s.flight, t, Agent(job));
  }

  /** A call moves on to its next job for the same agent. */
  lemma JobKeepsInv(s: State, t: CallId, job: Job)
    requires Inv(s) && t in s.jobs && Agent(job) == Agent(s.jobs[t])
    requires job.Saving? ==> ValidRecord(job.record)
    requires job.Updating? ==> job.snapshot.agentDID == job.request.agentDID
    ensures Inv(s.(jobs := s.jobs[t := job]))
  {
    hide ValidRecord, Stored, F.Inv, Free;
  }

  lemma WaitKeepsInv(s: State, g: F.Flight<string>, t: CallId)
    requires Inv(s) && F.Step(s.flight, g, t) && g.pending == s.flight.pending
    ensures Inv(s.(flight := g))
  {
    assert Free(g, s.table);
    hide Keyed, Free, Stored, Ready, F.Step;
    StepKeepsKeyed(s.flight, g, s.jobs, t);
  }

  lemma BeginKeepsInv(s: State, t: CallId)
    requires Inv(s) && F.IsReady(s.flight, t) && s.flight.keys[t] !in s.flight.pending && s.flight.keys[t] !in s.table
    ensures Inv(s.(flight := F.Begin(s.flight, t)))
  {
    var g := F.Begin(s.flight, t);
    assert Free(g, s.table);
    hide Free, Stored, Ready, F.Inv;
    StepKeepsKeyed(s.flight, g, s.jobs, t);
  }

  lemma FinishFrees(f: F.Flight<string>, table: Table, t: CallId, outcome: Result<Record>)
    requires F.Inv(f) && Free(f, table) && Stored(table) && F.IsRunning(f, t)
    ensures f.keys[t] !in table
    ensures Free(F.Finish(f, t), Commit(table, f.keys[t], outcome)) && Stored(Commit(table, f.keys[t], outcome))
    ensures F.Step(f, F.Finish(f, t), t)
  {
    hide ValidRecord;
  }

  lemma KeyedFlight(f: F.Flight<string>, jobs: map<CallId, Job>)
    requires Keyed(f, jobs)
    ensures F.Inv(f)
  {
  }

  lemma ReturnKeepsInv(s: State, t: CallId, outcome: Result<Record>)
    requires Inv(s) && F.IsRunning(s.flight, t)
    ensures Inv(ApplyReturn(s, t, outcome)) && s.flight.keys[t] !in s.table
  {
    hide Keyed, Free, Stored, Ready, F.Inv, F.Step, F.Finish, Commit, Told;
    KeyedFlight(s.flight, s.jobs);
    FinishFrees(s.flight, s.table, t, outcome);
    StepKeepsKeyed(s.flight, F.Finish(s.flight, t), s.jobs, t);
  }

  lemma SaveKeepsInv(s: State, t: CallId)
    requires Inv(s) && At(s, t) && s.jobs[t].Saving?
    ensures Inv(ApplySave(s, t))
  {
    var record := s.jobs[t].record;
    if record.agentDID in s.flight.pending {
      WaitKeepsInv(s, F.Park(s.flight, t), t);
    } else {
      var table := s.table[record.agentDID := record];
      assert Free(s.flight, table) && Stored(table);
      hide Keyed, Free, Stored, Ready;
      AnswerKeepsInv(s.(table := table), t, Saved(record));
    }
  }

  lemma StoredAgent(table: Table, did: string)
    requires Stored(table) && did in table
    ensures table[did].agentDID == did && ValidRecord(table[did])
  {
  }

  lemma ReadKeepsInv(s: State, t: CallId)
    requires Inv(s) && At(s, t) && s.jobs[t].Reading?
    ensures Inv(ApplyRead(s, t))
  {
    hide Keyed, Free, Stored, Ready, ValidRecord;
    var request := s.jobs[t].request;
    if request.agentDID in s.table {
      StoredAgent(s.table, request.agentDID);
      JobKeepsInv(s, t, Updating(request, s.table[request.agentDID]));
    } else {
      JobKeepsInv(s, t, Creating(request));
    }
  }

  lemma DecidedRecordIsTheSnapshots(config: Config, request: Request, snapshot: Record, decision: Decision, now: Time)
    ensures Decide(config, request, snapshot, decision, now).Save? ==>
              SameEnrollment(snapshot, Decide(config, request, snapshot, decision, now).record)
  {
  }

  lemma SnapshotAgent(s: State, t: CallId)
    requires Ready(s.jobs) && t in s.jobs && s.jobs[t].Updating?
    ensures s.jobs[t].snapshot.agentDID == s.jobs[t].request.agentDID
  {
  }

  lemma SettleKeepsInv(config: Config, s: State, t: CallId, decision: Decision, now: Time)
    requires Inv(s) && At(s, t) && s.jobs[t].Updating?
    ensures Inv(ApplySettle(config, s, t, decision, now))
  {
    hide Keyed, Free, Stored, Ready, Decide, ValidRecord;
    var update := Decide(config, s.jobs[t].request, s.jobs[t].snapshot, decision, now);
    DecidedRecordIsTheSnapshots(config, s.jobs[t].request, s.jobs[t].snapshot, decision, now);
    SnapshotAgent(s, t);
    match update
    case Save(record) =>
      if ValidRecord(record) { JobKeepsInv(s, t, Saving(record)); } else { AnswerKeepsInv(s, t, Failed); }
    case Unchanged => AnswerKeepsInv(s, t, Existing(s.jobs[t].snapshot));
    case _ => AnswerKeepsInv(s, t, Failed);
  }

  lemma LookKeepsInv(s: State, t: CallId)
    requires Inv(s) && At(s, t) && s.jobs[t].Creating?
    ensures Inv(ApplyLook(s, t))
  {
    hide Keyed, Free, Stored, Ready;
    match EnterCreate(s.table, s.flight.pending, Agent(s.jobs[t]))
    case Found(record) => AnswerKeepsInv(s, t, Existing(record));
    case Wait(_) => WaitKeepsInv(s, F.Park(s.flight, t), t);
    case Open => BeginKeepsInv(s, t);
  }

  lemma ApplyKeepsInv(config: Config, s: State, step: Step)
    requires Inv(s)
    ensures Inv(Apply(config, s, step))
  {
    hide Keyed, Free, Stored, Ready, Starting, Answering, ApplyRead, ApplySettle, ApplyLook, ApplySave, ApplyReturn, ValidRecord;
    if Apply(config, s, step) != s {
      match step
      case Invoke(t, request) => ArriveKeepsInv(s, t, Reading(request));
      case SaveOutside(t, record) => ArriveKeepsInv(s, t, Saving(record));
      case Read(t) => ReadKeepsInv(s, t);
      case Settle(t, decision, now) => SettleKeepsInv(config, s, t, decision, now);
      case Look(t) => LookKeepsInv(s, t);
      case Save(t) => SaveKeepsInv(s, t);
      case Wake(t) => WaitKeepsInv(s, F.Wake(s.flight, t), t);
      case Cancel(t) => AnswerKeepsInv(s, t, Failed);
      case Return(t, outcome) => ReturnKeepsInv(s, t, outcome);
    }
  }

  lemma {:induction false} RunKeepsInv(config: Config, run: seq<Step>)
    ensures Inv(After(config, run))
  {
    if run != [] {
      RunKeepsInv(config, run[..|run| - 1]);
      ApplyKeepsInv(config, After(config, run[..|run| - 1]), run[|run| - 1]);
    } else {
      F.EmptyInv<string>();
    }
  }

  // ------------------------------------------- theorems about every run

  lemma AfterStep(config: Config, run: seq<Step>, step: Step)
    ensures After(config, run + [step]) == Apply(config, After(config, run), step)
  {
    assert (run + [step])[..|run + [step]| - 1] == run;
  }

  /** A creation never overwrites a saved record, even when records are saved from
      outside the protocol: the agent has none while its creation runs. */
  lemma CreationNeverOverwrites(config: Config, run: seq<Step>, t: CallId)
    requires F.IsRunning(After(config, run).flight, t)
    ensures After(config, run).flight.keys[t] !in After(config, run).table
  {
    RunKeepsInv(config, run);
    ReturnKeepsInv(After(config, run), t, Err(""));
  }

  /** A save that finds a creation pending waits for it, and the wait ends: the
      creation is live or its channel is closed. */
  lemma WaitersHaveALiveCreator(config: Config, run: seq<Step>, t: CallId)
    requires F.IsParked(After(config, run).flight, t)
    ensures var f := After(config, run).flight;
            F.CanWake(f, t) || (F.IsRunning(f, f.phases[t].channel) && f.keys[f.phases[t].channel] == f.keys[t])
  {
    RunKeepsInv(config, run);
    F.NoLostWaiter(After(config, run).flight, t);
  }

  /** Once no call arrives any more, every step that moves the flight spends budget. */
  lemma StepsSpendBudget(config: Config, run: seq<Step>, step: Step)
    requires !step.Invoke? && !step.SaveOutside?
    ensures var f, g := After(config, run).flight, After(config, run + [step]).flight;
            g == f || (F.Moves(f, g) && F.Budget(g) < F.Budget(f))
  {
    RunKeepsInv(config, run);
    AfterStep(config, run, step);
    var f, g := After(config, run).flight, After(config, run + [step]).flight;
    if g != f {
      MovesAreFlightSteps(config, After(config, run), step);
      F.StepSpends(f, g, step.call);
    }
  }

  lemma MovesAreFlightSteps(config: Config, s: State, step: Step)
    requires !step.Invoke? && !step.SaveOutside? && Apply(config, s, step).flight != s.flight
    ensures F.Step(s.flight, Apply(config, s, step).flight, step.call)
  {
    hide Decide, ValidRecord, Commit, Told;
  }

  // ------------------------------------------------- what each step is told

  ghost predicate Ended(f: F.Flight<string>, answers: map<CallId, Answer>) {
    && (forall t :: t in answers ==> t in f.phases)
    && (forall t :: t in f.phases ==> (f.phases[t].Finished? <==> t in answers))
  }

  /** What one step does to the phases and the answers. */
  ghost predicate OneCall(s: State, s': State, t: CallId) {
    && t in s.flight.phases && t in s'.flight.phases && !s.flight.phases[t].Finished?
    && s'.flight.phases == s.flight.phases[t := s'.flight.phases[t]]
    && if s'.flight.phases[t].Finished? then t in s'.answers && s'.answers == s.answers[t := s'.answers[t]] else s'.answers == s.answers
  }

  lemma OneCallKeepsEnded(s: State, s': State, t: CallId)
    requires Ended(s.flight, s.answers) && OneCall(s, s', t)
    ensures Ended(s'.flight, s'.answers) && forall u :: u in s.answers ==> u in s'.answers && s'.answers[u] == s.answers[u]
  {
  }

  lemma LookIsOneCall(s: State, t: CallId)
    requires At(s, t) && s.jobs[t].Creating?
    ensures OneCall(s, ApplyLook(s, t), t)
  {
  }

  lemma SaveIsOneCall(s: State, t: CallId)
    requires At(s, t) && s.jobs[t].Saving?
    ensures OneCall(s, ApplySave(s, t), t)
  {
  }

  lemma SettleIsOneCall(config: Config, s: State, t: CallId, decision: Decision, now: Time)
    requires At(s, t) && s.jobs[t].Updating?
    ensures OneCall(s, ApplySettle(config, s, t, decision, now), t)
  {
    hide Decide, ValidRecord;
  }

  lemma ReturnIsOneCall(s: State, t: CallId, outcome: Result<Record>)
    requires F.IsRunning(s.flight, t)
    ensures OneCall(s, ApplyReturn(s, t, outcome), t)
  {
    hide Commit, Told;
  }

  lemma ApplyKeepsEnded(config: Config, s: State, step: Step)
    requires Ended(s.flight, s.answers)
    ensures var s' := Apply(config, s, step);
            Ended(s'.flight, s'.answers) && forall t :: t in s.answers ==> t in s'.answers && s'.answers[t] == s.answers[t]
  {
    var s' := Apply(config, s, step);
    if s'.flight.phases != s.flight.phases || s'.answers != s.answers {
      hide Ended, ApplyRead, ApplySettle, ApplyLook, ApplySave, ApplyReturn, ValidRecord, Starting;
      match step
      case Invoke(t, request) => ArrivalKeepsEnded(s, t, Reading(request));
      case SaveOutside(t, record) => ArrivalKeepsEnded(s, t, Saving(record));
      case Read(t) => ReadChangesOnlyTheJob(s, t);
      case Settle(t, decision, now) => SettleIsOneCall(config, s, t, decision, now); OneCallKeepsEnded(s, s', t);
      case Look(t) => LookIsOneCall(s, t); OneCallKeepsEnded(s, s', t);
      case Save(t) => SaveIsOneCall(s, t); OneCallKeepsEnded(s, s', t);
      case Wake(t) => OneCallKeepsEnded(s, s', t);
      case Cancel(t) => OneCallKeepsEnded(s, s', t);
      case Return(t, outcome) => ReturnIsOneCall(s, t, outcome); OneCallKeepsEnded(s, s', t);
    }
  }

  lemma ReadChangesOnlyTheJob(s: State, t: CallId)
    requires At(s, t) && s.jobs[t].Reading?
    ensures ApplyRead(s, t) == s.(jobs := ApplyRead(s, t).jobs)
  {
  }

  lemma ArrivalKeepsEnded(s: State, t: CallId, job: Job)
    requires Ended(s.flight, s.answers) && t !in s.flight.phases
    ensures Ended(Starting(s, t, job).flight, s.answers) && Starting(s, t, job).answers == s.answers
  {
  }

  /** A call has ended exactly if it was answered; so nobody is dropped, and once every
      call has ended every call has its answer. */
  lemma {:induction false} EndedMeansAnswered(config: Config, run: seq<Step>)
    ensures Ended(After(config, run).flight, After(config, run).answers)
  {
    if run != [] {
      hide Ended, Apply;
      var n := |run| - 1;
      EndedMeansAnswered(config, run[..n]);
      ApplyKeepsEnded(config, After(config, run[..n]), run[n]);
    }
  }

  lemma KeysAreAgents(s: State)
    requires Inv(s)
    ensures s.flight.phases.Keys == s.flight.keys.Keys == s.jobs.Keys
    ensures forall t :: t in s.jobs ==> s.flight.keys[t] == Agent(s.jobs[t])
    ensures forall t :: F.IsReady(s.flight, t) ==> At(s, t)
  {
    hide Free, Stored, Ready;
  }

  /** A new Enroll call gets ready to read. */
  lemma ArrivalsAreReady(config: Config, run: seq<Step>, t: CallId, request: Request)
    requires t !in After(config, run).jobs
    ensures var s := After(config, run + [Invoke(t, request)]);
            if request.agentDID != "" then F.IsReady(s.flight, t) && t in s.jobs && s.jobs[t] == Reading(request)
            else s == After(config, run)
  {
    RunKeepsInv(config, run);
    KeysAreAgents(After(config, run));
    AfterStep(config, run, Invoke(t, request));
    hide Inv;
  }

  /** A call that is not creating may give up at any time; that stores nothing. */
  lemma CancellationsEnd(config: Config, run: seq<Step>, t: CallId)
    requires F.IsReady(After(config, run).flight, t) || F.IsParked(After(config, run).flight, t)
    ensures var s := After(config, run + [Cancel(t)]); t in s.answers && s.answers[t] == Failed && s.table == After(config, run).table
  {
    AfterStep(config, run, Cancel(t));
    hide After, ApplyRead, ApplySettle, ApplyLook, ApplySave, ApplyReturn, Starting, ValidRecord;
  }

  ghost predicate IsCreating(s: State, u: CallId, agentDID: string) {
    F.IsRunning(s.flight, u) && u in s.jobs && Agent(s.jobs[u]) == agentDID
  }

  lemma CreatorsArePending(s: State, agentDID: string)
    requires Inv(s)
    ensures forall u :: IsCreating(s, u, agentDID) <==> agentDID in s.flight.pending && s.flight.pending[agentDID] == u
  {
    hide Free, Stored, Ready;
  }

  /** What reading the store comes to: an update of the record it finds, or else a creation. */
  lemma ReadsDecide(config: Config, run: seq<Step>, t: CallId)
    requires var s := After(config, run); F.IsReady(s.flight, t) && t in s.jobs && s.jobs[t].Reading?
    ensures var s, s' := After(config, run), After(config, run + [Read(t)]); var request := s.jobs[t].request;
            && t in s'.jobs && F.IsReady(s'.flight, t) && s'.table == s.table
            && s'.jobs[t] == if request.agentDID in s.table then Updating(request, s.table[request.agentDID]) else Creating(request)
  {
    RunKeepsInv(config, run);
    KeysAreAgents(After(config, run));
    AfterStep(config, run, Read(t));
    hide Inv;
  }

  /** What the look of a creation comes to: the record if there is one by now, a wait for
      the call that is creating it, or the creation. */
  lemma LooksDecide(config: Config, run: seq<Step>, t: CallId)
    requires var s := After(config, run); F.IsReady(s.flight, t) && t in s.jobs && s.jobs[t].Creating?
    ensures var s, s' := After(config, run), After(config, run + [Look(t)]); var agentDID := s.jobs[t].request.agentDID;
            && s'.table == s.table
            && (agentDID in s.table ==> t in s'.answers && s'.answers[t] == Existing(s.table[agentDID]))
            && (agentDID !in s.table ==>
                  if exists u :: IsCreating(s, u, agentDID)
                  then F.IsParked(s'.flight, t) && IsCreating(s, s'.flight.phases[t].channel, agentDID)
                  else F.IsRunning(s'.flight, t))
  {
    RunKeepsInv(config, run);
    AfterStep(config, run, Look(t));
    var s := After(config, run);
    KeysAreAgents(s);
    CreatorsArePending(s, s.jobs[t].request.agentDID);
    LookIs(config, s, t);
    hide Inv, Apply, IsCreating;
  }

  lemma LookIs(config: Config, s: State, t: CallId)
    requires At(s, t) && s.jobs[t].Creating?
    ensures var s', agentDID := Apply(config, s, Look(t)), s.jobs[t].request.agentDID;
            && s'.table == s.table && s'.flight.keys == s.flight.keys
            && (agentDID in s.table ==> s'.answers == s.answers[t := Existing(s.table[agentDID])])
            && (agentDID !in s.table && agentDID in s.flight.pending ==> s'.flight.phases == s.flight.phases[t := F.Parked(s.flight.pending[agentDID])])
            && (agentDID !in s.table && agentDID !in s.flight.pending ==> s'.flight.phases == s.flight.phases[t := F.Running])
  {
  }

  /** A creation succeeds exactly with a valid record of its own agent, which it stores;
      otherwise nothing is stored. */
  lemma CreationsSucceedExactly(config: Config, run: seq<Step>, t: CallId, outcome: Result<Record>)
    requires F.IsRunning(After(config, run).flight, t)
    ensures var s, s' := After(config, run), After(config, run + [Return(t, outcome)]);
            && t in s.jobs && t in s'.answers
            && var agentDID := Agent(s.jobs[t]);
               if outcome.Ok? && ValidRecord(outcome.value) && outcome.value.agentDID == agentDID
               then s'.answers[t] == Created(outcome.value) && s'.table == s.table[agentDID := outcome.value]
               else s'.answers[t].Failed? && s'.table == s.table
  {
    RunKeepsInv(config, run);
    KeysAreAgents(After(config, run));
    AfterStep(config, run, Return(t, outcome));
    hide Inv, After, Apply, ValidRecord;
    ReturnIs(config, After(config, run), t, outcome);
  }

  lemma ReturnIs(config: Config, s: State, t: CallId, outcome: Result<Record>)
    requires F.IsRunning(s.flight, t)
    ensures var s', agentDID := Apply(config, s, Return(t, outcome)), s.flight.keys[t];
            && t in s'.answers
            && if outcome.Ok? && ValidRecord(outcome.value) && outcome.value.agentDID == agentDID
               then s'.answers[t] == Created(outcome.value) && s'.table == s.table[agentDID := outcome.value]
               else s'.answers[t].Failed? && s'.table == s.table
  {
    hide ValidRecord, F.Finish;
  }

  // ------------------------------------ theorems about faithful saves

  /** Only Enroll writes to the store. */
  ghost predicate Inside(run: seq<Step>) {
    forall step | step in run :: !step.SaveOutside?
  }

  /** Whoever else saves starts from a record that names the stored enrollment. */
  ghost predicate Faithfully(config: Config, run: seq<Step>) {
    run == [] ||
    (var n := |run| - 1;
     Faithfully(config, run[..n]) && (run[n].SaveOutside? ==> Names(After(config, run[..n]).table, run[n].record)))
  }

  lemma {:induction false} InsideIsFaithful(config: Config, run: seq<Step>)
    requires Inside(run)
    ensures Faithfully(config, run)
  {
    if run != [] {
      InsideIsFaithful(config, run[..|run| - 1]);
      assert run[|run| - 1] in run;
    }
  }

  lemma FaithfulSurvives(t: Table, u: Table, jobs: map<CallId, Job>, answers: map<CallId, Answer>)
    requires Faithful(t, jobs, answers) && Extends(t, u)
    ensures Faithful(u, jobs, answers)
  {
  }

  lemma JobKeepsFaithful(table: Table, jobs: map<CallId, Job>, answers: map<CallId, Answer>, t: CallId, job: Job)
    requires Faithful(table, jobs, answers)
    requires (job.Updating? ==> Names(table, job.snapshot)) && (job.Saving? ==> Names(table, job.record))
    ensures Faithful(table, jobs[t := job], answers)
  {
  }

  lemma AnswerKeepsFaithful(table: Table, jobs: map<CallId, Job>, answers: map<CallId, Answer>, t: CallId, answer: Answer)
    requires Faithful(table, jobs, answers)
    requires !answer.Failed? ==> Names(table, answer.record)
    ensures Faithful(table, jobs, answers[t := answer])
  {
  }

  lemma SaveExtends(table: Table, record: Record)
    requires Names(table, record)
    ensures Extends(table, table[record.agentDID := record]) && Names(table[record.agentDID := record], record)
  {
  }

  lemma CommitExtends(table: Table, agentDID: string, outcome: Result<Record>)
    requires agentDID !in table
    ensures Extends(table, Commit(table, agentDID, outcome))
    ensures var told := Told(agentDID, outcome); !told.Failed? ==> Names(Commit(table, agentDID, outcome), told.record)
  {
  }

  lemma SettleKeepsFaithful(config: Config, s: State, t: CallId, decision: Decision, now: Time)
    requires Faithful(s.table, s.jobs, s.answers) && At(s, t) && s.jobs[t].Updating?
    ensures var s' := ApplySettle(config, s, t, decision, now);
            s'.table == s.table && Faithful(s'.table, s'.jobs, s'.answers)
  {
    var snapshot := s.jobs[t].snapshot;
    assert Names(s.table, snapshot);
    DecidedRecordIsTheSnapshots(config, s.jobs[t].request, snapshot, decision, now);
    hide Faithful, Decide, ValidRecord;
    match Decide(config, s.jobs[t].request, snapshot, decision, now)
    case Save(record) =>
      if ValidRecord(record) { JobKeepsFaithful(s.table, s.jobs, s.answers, t, Saving(record)); }
      else { AnswerKeepsFaithful(s.table, s.jobs, s.answers, t, Failed); }
    case Unchanged => AnswerKeepsFaithful(s.table, s.jobs, s.answers, t, Existing(snapshot));
    case _ => AnswerKeepsFaithful(s.table, s.jobs, s.answers, t, Failed);
  }

  lemma SaveKeepsFaithful(s: State, t: CallId)
    requires Faithful(s.table, s.jobs, s.answers) && At(s, t) && s.jobs[t].Saving?
    ensures var s' := ApplySave(s, t);
            Extends(s.table, s'.table) && Faithful(s'.table, s'.jobs, s'.answers)
  {
    var record := s.jobs[t].record;
    assert Names(s.table, record);
    SaveExtends(s.table, record);
    FaithfulSurvives(s.table, s.table[record.agentDID := record], s.jobs, s.answers);
    AnswerKeepsFaithful(s.table[record.agentDID := record], s.jobs, s.answers, t, Saved(record));
  }

  lemma ReturnKeepsFaithful(s: State, t: CallId, outcome: Result<Record>)
    requires Inv(s) && Faithful(s.table, s.jobs, s.answers) && F.IsRunning(s.flight, t)
    ensures var s' := ApplyReturn(s, t, outcome);
            Extends(s.table, s'.table) && Faithful(s'.table, s'.jobs, s'.answers)
  {
    ReturnKeepsInv(s, t, outcome);
    hide Inv, Faithful, Extends, Commit, Told;
    var agentDID := s.flight.keys[t];
    CommitExtends(s.table, agentDID, outcome);
    FaithfulSurvives(s.table, Commit(s.table, agentDID, outcome), s.jobs, s.answers);
    AnswerKeepsFaithful(Commit(s.table, agentDID, outcome), s.jobs, s.answers, t, Told(agentDID, outcome));
  }

  lemma StoredRecordIsNamed(table: Table, did: string)
    requires Stored(table) && did in table
    ensures Names(table, table[did])
  {
  }

  lemma QuietStepKeepsFaithful(config: Config, s: State, step: Step)
    requires Inv(s) && Faithful(s.table, s.jobs, s.answers)
    requires step.Invoke? || step.SaveOutside? || step.Read? || step.Look? || step.Wake? || step.Cancel?
    requires step.SaveOutside? ==> Names(s.table, step.record)
    ensures var s' := Apply(config, s, step);
            s'.table == s.table && Faithful(s'.table, s'.jobs, s'.answers)
  {
    hide Faithful, Keyed, Free, Ready, Stored, Names, F.Park, F.Begin, F.Leave, F.Wake, F.Arrive;
    if Apply(config, s, step) != s {
      var t := step.call;
      match step
      case Invoke(_, request) => JobKeepsFaithful(s.table, s.jobs, s.answers, t, Reading(request));
      case SaveOutside(_, record) => JobKeepsFaithful(s.table, s.jobs, s.answers, t, Saving(record));
      case Read(_) =>
        var request := s.jobs[t].request;
        if request.agentDID in s.table {
          StoredRecordIsNamed(s.table, request.agentDID);
          JobKeepsFaithful(s.table, s.jobs, s.answers, t, Updating(request, s.table[request.agentDID]));
        } else {
          JobKeepsFaithful(s.table, s.jobs, s.answers, t, Creating(request));
        }
      case Look(_) =>
        var did := Agent(s.jobs[t]);
        if did in s.table {
          StoredRecordIsNamed(s.table, did);
          AnswerKeepsFaithful(s.table, s.jobs, s.answers, t, Existing(s.table[did]));
        }
      case Cancel(_) => AnswerKeepsFaithful(s.table, s.jobs, s.answers, t, Failed);
      case _ =>
    }
  }

  lemma ExtendsReflexive(t: Table)
    requires Stored(t)
    ensures Extends(t, t)
  {
  }

  lemma ExtendsTransitive(t: Table, u: Table, v: Table)
    requires Extends(t, u) && Extends(u, v)
    ensures Extends(t, v)
  {
  }

  lemma ApplyKeepsFaithful(config: Config, s: State, step: Step)
    requires Inv(s) && Faithful(s.table, s.jobs, s.answers)
    requires step.SaveOutside? ==> Names(s.table, step.record)
    ensures var s' := Apply(config, s, step);
            Extends(s.table, s'.table) && Faithful(s'.table, s'.jobs, s'.answers)
  {
    ExtendsReflexive(s.table);
    hide Inv, Faithful, Extends, ApplyRead, ApplySettle, ApplyLook, ApplySave, ApplyReturn, Starting, Answering;
    match step
    case Settle(t, decision, now) => if At(s, t) && s.jobs[t].Updating? { SettleKeepsFaithful(config, s, t, decision, now); }
    case Save(t) => if At(s, t) && s.jobs[t].Saving? { SaveKeepsFaithful(s, t); }
    case Return(t, outcome) => if F.IsRunning(s.flight, t) { ReturnKeepsFaithful(s, t, outcome); }
    case _ => QuietStepKeepsFaithful(config, s, step);
  }

  lemma {:induction false} RunKeepsFaithful(config: Config, run: seq<Step>)
    requires Faithfully(config, run)
    ensures var s := After(config, run); Faithful(s.table, s.jobs, s.answers)
  {
    if run != [] {
      hide Faithful, Inv, Apply, Names;
      var n := |run| - 1;
      RunKeepsFaithful(config, run[..n]);
      RunKeepsInv(config, run[..n]);
      ApplyKeepsFaithful(config, After(config, run[..n]), run[n]);
    } else {
      assert After(config, run) == START;
    }
  }

  /** Once an enrollment exists its AgentDID, EnrollmentID, CreatedAt, Since and
      Status stay what they are, although updates are saved from stale snapshots, and
      whoever else saves, as long as it starts from the stored enrollment. */
  lemma {:induction false} EnrollmentsPersist(config: Config, run: seq<Step>, more: seq<Step>)
    requires Faithfully(config, run + more)
    ensures Extends(After(config, run).table, After(config, run + more).table)
  {
    if more == [] {
      assert run + more == run;
      RunKeepsInv(config, run);
      ExtendsReflexive(After(config, run).table);
    } else {
      hide Faithful, Extends, Inv, Apply, After, Names;
      var n := |more| - 1;
      assert run + more == (run + more[..n]) + [more[n]];
      assert (run + more)[..|run + more| - 1] == run + more[..n];
      EnrollmentsPersist(config, run, more[..n]);
      RunKeepsFaithful(config, run + more[..n]);
      RunKeepsInv(config, run + more[..n]);
      AfterStep(config, run + more[..n], more[n]);
      ApplyKeepsFaithful(config, After(config, run + more[..n]), more[n]);
      ExtendsTransitive(After(config, run).table, After(config, run + more[..n]).table, After(config, run + more).table);
    }
  }

  /** Whatever their interleaving, successful Enroll calls of one agent answer with
      the same enrollment, the one that is stored. */
  lemma AnswersAgree(config: Config, run: seq<Step>, t: CallId, u: CallId)
    requires Faithfully(config, run)
    requires var a := After(config, run).answers; t in a && u in a && !a[t].Failed? && !a[u].Failed?
    requires var a := After(config, run).answers; a[t].record.agentDID == a[u].record.agentDID
    ensures var s := After(config, run);
            && SameEnrollment(s.answers[t].record, s.answers[u].record)
            && Names(s.table, s.answers[t].record)
  {
    RunKeepsFaithful(config, run);
  }

  /** SaveEnrollment is then only ever reached for an agent that has a record, so it
      never finds a creation pending. */
  lemma ProtocolSavesNeverWait(config: Config, run: seq<Step>, t: CallId)
    requires Faithfully(config, run) && t in After(config, run).jobs && After(config, run).jobs[t].Saving?
    ensures EnterSave(After(config, run).flight.pending, After(config, run).jobs[t].record.agentDID).Open?
  {
    RunKeepsInv(config, run);
    RunKeepsFaithful(config, run);
    assert Names(After(config, run).table, After(config, run).jobs[t].record);
  }

  /** And it takes effect: the record is stored, and the call is told so. */
  lemma SavesTakeEffect(config: Config, run: seq<Step>, t: CallId)
    requires Faithfully(config, run)
    requires var s := After(config, run); F.IsReady(s.flight, t) && t in s.jobs && s.jobs[t].Saving?
    ensures var s, s' := After(config, run), After(config, run + [Step.Save(t)]); var record := s.jobs[t].record;
            t in s'.answers && s'.answers[t] == Saved(record) && s'.table == s.table[record.agentDID := record]
  {
    ProtocolSavesNeverWait(config, run, t);
    RunKeepsInv(config, run);
    KeysAreAgents(After(config, run));
    AfterStep(config, run, Step.Save(t));
    hide Inv, After, Apply;
    SaveIs(config, After(config, run), t);
  }

  lemma SaveIs(config: Config, s: State, t: CallId)
    requires At(s, t) && s.jobs[t].Saving? && s.jobs[t].record.agentDID !in s.flight.pending
    ensures var s', record := Apply(config, s, Step.Save(t)), s.jobs[t].record;
            t in s'.answers && s'.answers[t] == Saved(record) && s'.table == s.table[record.agentDID := record]
  {
    hide F.Leave;
  }

  /** What a repeated Enroll asks for, and the policy grants, is stored: the supplied
      claims beside the old ones, and the declared documents. */
  ghost predicate Takes(config: Config, request: Request, existing: Record, decision: Decision, now: Time, r: Record) {
    && SameEnrollment(existing, r) && r.updatedAt == now
    && (forall n :: n in NamesOf(request.claims) ==> n in NamesOf(r.claims) && r.claims.value[n] == request.claims.value[n])
    && (forall n :: n in NamesOf(existing.claims) && n !in NamesOf(request.claims) ==> n in NamesOf(r.claims) && r.claims.value[n] == existing.claims.value[n])
    && AcceptedFrom(config.documents, existing.acknowledged, Declared(request), r.acknowledged)
    && r.renewals == Without(existing.renewals, Elements(Declared(request)))
    && r.ownerActionRequired == Given(decision.ownerActionRequired, existing.ownerActionRequired)
  }

  lemma UpdatesAreDecided(config: Config, request: Request, existing: Record, decision: Decision, now: Time)
    requires ValidRecord(existing) && now != ZERO_TIME && !LacksSomething(config, request, existing)
    requires decision.updateExisting != Some(false) && (decision.status.None? || decision.status.value.Active? || decision.status.value.Pending?)
    ensures var update := Decide(config, request, existing, decision, now);
            update.Save? && Takes(config, request, existing, decision, now, update.record) && ValidRecord(update.record)
  {
    DecidesByCases(config, request, existing, decision, now);
    hide MissingClaims, MissingIDs, LacksSomething, AcceptedFrom, Without, Elements, NoDuplicates;
    SavedUpdateIsFaithful(config, request, existing, decision, now);
  }

  /** Completeness of a repeated Enroll: unless the policy rejects it or leaves the record
      alone, and if nothing required is lacking, the call is answered with the updated
      record, and that record is stored. */
  lemma RepeatedEnrollsAreSaved(config: Config, run: seq<Step>, t: CallId, decision: Decision, now: Time)
    requires Faithfully(config, run)
    requires var s := After(config, run);
             && F.IsReady(s.flight, t) && t in s.jobs && s.jobs[t].Reading? && s.jobs[t].request.agentDID in s.table
             && !LacksSomething(config, s.jobs[t].request, s.table[s.jobs[t].request.agentDID])
    requires now != ZERO_TIME && decision.updateExisting != Some(false)
    requires decision.status.None? || decision.status.value.Active? || decision.status.value.Pending?
    ensures var s, s' := After(config, run), After(config, run + [Read(t)] + [Settle(t, decision, now)] + [Step.Save(t)]);
            var request, existing := s.jobs[t].request, s.table[s.jobs[t].request.agentDID];
            && t in s'.answers && s'.answers[t].Saved? && Takes(config, request, existing, decision, now, s'.answers[t].record)
            && s'.table == s.table[request.agentDID := s'.answers[t].record]
  {
    var s := After(config, run);
    var request, existing := s.jobs[t].request, s.table[s.jobs[t].request.agentDID];
    var read, settled := run + [Read(t)], run + [Read(t)] + [Settle(t, decision, now)];
    RunKeepsInv(config, run);
    StoredAgent(s.table, request.agentDID);
    ReadsDecide(config, run, t);
    UpdatesAreDecided(config, request, existing, decision, now);
    assert settled[..|settled| - 1] == read && read[..|read| - 1] == run;
    hide Decide, Takes, LacksSomething, ValidRecord, After, Inv, Apply;
    SettlesIntoASave(config, read, t, decision, now);
    SavesTakeEffect(config, settled, t);
  }

  /** What the settled outcome of an update comes to for its call. */
  ghost predicate SettledAs(s: State, s': State, t: CallId, update: Update)
    requires t in s.jobs && s.jobs[t].Updating?
  {
    && s'.table == s.table
    && match update
       case Save(record) =>
         if ValidRecord(record) then t in s'.jobs && s'.jobs[t] == Saving(record) && t !in s'.answers
         else t in s'.answers && s'.answers[t].Failed?
       case Unchanged => t in s'.answers && s'.answers[t] == Existing(s.jobs[t].snapshot)
       case _ => t in s'.answers && s'.answers[t].Failed?
  }

  /** Every settled update comes to one of the outcomes, by its case. */
  lemma SettlesDecide(config: Config, run: seq<Step>, t: CallId, decision: Decision, now: Time) returns (update: Update)
    requires var s := After(config, run); F.IsReady(s.flight, t) && t in s.jobs && s.jobs[t].Updating?
    ensures var s, s' := After(config, run), After(config, run + [Settle(t, decision, now)]);
            && ComesTo(config, s.jobs[t].request, s.jobs[t].snapshot, decision, update)
            && SettledAs(s, s', t, update)
  {
    RunKeepsInv(config, run);
    EndedMeansAnswered(config, run);
    KeysAreAgents(After(config, run));
    AfterStep(config, run, Settle(t, decision, now));
    hide Inv, After, Apply, Decide, ComesTo, SettledAs;
    var s := After(config, run);
    update := Decide(config, s.jobs[t].request, s.jobs[t].snapshot, decision, now);
    DecidesByCases(config, s.jobs[t].request, s.jobs[t].snapshot, decision, now);
    SettleIsSettled(config, s, t, decision, now);
  }

  lemma SettleIsSettled(config: Config, s: State, t: CallId, decision: Decision, now: Time)
    requires At(s, t) && s.jobs[t].Updating? && t !in s.answers
    ensures SettledAs(s, Apply(config, s, Settle(t, decision, now)), t, Decide(config, s.jobs[t].request, s.jobs[t].snapshot, decision, now))
  {
    hide Decide, ValidRecord;
  }

  lemma SettlesIntoASave(config: Config, run: seq<Step>, t: CallId, decision: Decision, now: Time)
    requires var s := After(config, run);
             && F.IsReady(s.flight, t) && t in s.jobs && s.jobs[t].Updating?
             && var update := Decide(config, s.jobs[t].request, s.jobs[t].snapshot, decision, now);
                update.Save? && ValidRecord(update.record)
    ensures var s, s' := After(config, run), After(config, run + [Settle(t, decision, now)]);
            && s'.table == s.table && s'.flight == s.flight && t in s'.jobs
            && s'.jobs[t] == Saving(Decide(config, s.jobs[t].request, s.jobs[t].snapshot, decision, now).record)
  {
    RunKeepsInv(config, run);
    KeysAreAgents(After(config, run));
    AfterStep(config, run, Settle(t, decision, now));
    hide Inv, After, Apply, Decide, ValidRecord;
    SettleIs(config, After(config, run), t, decision, now);
  }

  lemma SettleIs(config: Config, s: State, t: CallId, decision: Decision, now: Time)
    requires At(s, t) && s.jobs[t].Updating?
    requires var update := Decide(config, s.jobs[t].request, s.jobs[t].snapshot, decision, now); update.Save? && ValidRecord(update.record)
    ensures Apply(config, s, Settle(t, decision, now)) ==
            s.(jobs := s.jobs[t := Saving(Decide(config, s.jobs[t].request, s.jobs[t].snapshot, decision, now).record)])
  {
    hide Decide, ValidRecord;
  }

  /** A save step does not write, or writes for an agent without a record, or writes a
      record that names the stored enrollment. */
  ghost predicate Respects(s: State, step: Step) {
    step.Save? && At(s, step.call) && s.jobs[step.call].Saving? ==>
      var record := s.jobs[step.call].record;
      EnterSave(s.flight.pending, record.agentDID).Wait? || record.agentDID !in s.table || Names(s.table, record)
  }

  /** Exactly when a step keeps every stored enrollment, in every reachable state and
      whatever is saved from outside. */
  lemma StepPersistsExactly(config: Config, run: seq<Step>, step: Step)
    ensures Extends(After(config, run).table, After(config, run + [step]).table) <==> Respects(After(config, run), step)
  {
    RunKeepsInv(config, run);
    AfterStep(config, run, step);
    var s := After(config, run);
    ExtendsReflexive(s.table);
    if step.Save? && At(s, step.call) && s.jobs[step.call].Saving? {
      SavePersistsExactly(s, step.call);
    } else if step.Return? && F.IsRunning(s.flight, step.call) {
      ReturnKeepsInv(s, step.call, step.outcome);
      CommitExtends(s.table, s.flight.keys[step.call], step.outcome);
    } else {
      OtherStepsKeepTheTable(config, s, step);
    }
  }

  lemma SavePersistsExactly(s: State, t: CallId)
    requires Stored(s.table) && At(s, t) && s.jobs[t].Saving?
    ensures Extends(s.table, ApplySave(s, t).table) <==> Respects(s, Step.Save(t))
  {
    var record := s.jobs[t].record;
    var table := ApplySave(s, t).table;
    if record.agentDID in s.table && !EnterSave(s.flight.pending, record.agentDID).Wait? {
      assert table[record.agentDID] == record;
      SameEnrollmentIsSymmetric(record, s.table[record.agentDID]);
      assert Extends(s.table, table) ==> SameEnrollment(s.table[record.agentDID], table[record.agentDID]);
    }
  }

  lemma SameEnrollmentIsSymmetric(a: Record, b: Record)
    ensures SameEnrollment(a, b) <==> SameEnrollment(b, a)
  {
  }

  lemma OtherStepsKeepTheTable(config: Config, s: State, step: Step)
    requires !(step.Save? && At(s, step.call) && s.jobs[step.call].Saving?)
    requires !(step.Return? && F.IsRunning(s.flight, step.call))
    ensures Apply(config, s, step).table == s.table
  {
    hide Decide, ValidRecord;
  }

  /** The condition on outside saves is needed: one outside save replaces an
      enrollment under the feet of everyone who was told about it. */
  lemma OutsideSavesCanReplace(config: Config, a: Record, b: Record)
    requires ValidRecord(a) && ValidRecord(b) && a.agentDID == b.agentDID && a.enrollmentID != b.enrollmentID
    ensures exists run: seq<Step>, more: seq<Step> ::
              && a.agentDID in After(config, run).table && After(config, run).table[a.agentDID] == a
              && !Extends(After(config, run).table, After(config, run + more).table)
  {
    var run := [] + [SaveOutside(0, a)] + [Step.Save(0)];
    AfterStep(config, [], SaveOutside(0, a));
    AfterStep(config, [] + [SaveOutside(0, a)], Step.Save(0));
    var more := [SaveOutside(1, b), Step.Save(1)];
    var one := run + [SaveOutside(1, b)];
    AfterStep(config, run, SaveOutside(1, b));
    AfterStep(config, one, Step.Save(1));
    assert run + more == one + [Step.Save(1)];
    assert After(config, run + more).table[a.agentDID] == b;
  }

  // ------------------------------------------ theorems about what is stored

  /** Creations are first Enrolls, and whoever else saves, saves complete records. */
  ghost predicate Genuine(config: Config, run: seq<Step>) {
    forall step | step in run ::
      && (step.Return? && step.outcome.Ok? ==> IsMade(config, step.outcome.value))
      && (step.SaveOutside? ==> WellEnrolled(config, step.record))
  }

  ghost predicate AllWell(config: Config, table: Table, jobs: map<CallId, Job>) {
    && (forall did :: did in table ==> WellEnrolled(config, table[did]))
    && (forall t :: t in jobs && jobs[t].Updating? ==> WellEnrolled(config, jobs[t].snapshot))
    && (forall t :: t in jobs && jobs[t].Saving? ==> WellEnrolled(config, jobs[t].record))
  }

  lemma JobKeepsWell(config: Config, table: Table, jobs: map<CallId, Job>, t: CallId, job: Job)
    requires AllWell(config, table, jobs)
    requires (job.Updating? ==> WellEnrolled(config, job.snapshot)) && (job.Saving? ==> WellEnrolled(config, job.record))
    ensures AllWell(config, table, jobs[t := job])
  {
    hide WellEnrolled;
  }

  lemma RecordKeepsWell(config: Config, table: Table, jobs: map<CallId, Job>, did: string, r: Record)
    requires AllWell(config, table, jobs) && WellEnrolled(config, r)
    ensures AllWell(config, table[did := r], jobs)
  {
    hide WellEnrolled;
  }

  lemma SettleKeepsWell(config: Config, s: State, t: CallId, decision: Decision, now: Time)
    requires AllWell(config, s.table, s.jobs) && At(s, t) && s.jobs[t].Updating?
    ensures var s' := ApplySettle(config, s, t, decision, now); AllWell(config, s'.table, s'.jobs)
  {
    assert WellEnrolled(config, s.jobs[t].snapshot);
    hide Decide, ValidRecord, WellEnrolled, AllWell;
    var update := Decide(config, s.jobs[t].request, s.jobs[t].snapshot, decision, now);
    if update.Save? {
      SavedIsWellEnrolled(config, s.jobs[t].request, s.jobs[t].snapshot, decision, now);
      JobKeepsWell(config, s.table, s.jobs, t, Saving(update.record));
    }
  }

  lemma SaveKeepsWell(config: Config, s: State, t: CallId)
    requires AllWell(config, s.table, s.jobs) && At(s, t) && s.jobs[t].Saving?
    ensures var s' := ApplySave(s, t); AllWell(config, s'.table, s'.jobs)
  {
    assert WellEnrolled(config, s.jobs[t].record);
    hide WellEnrolled, AllWell;
    RecordKeepsWell(config, s.table, s.jobs, s.jobs[t].record.agentDID, s.jobs[t].record);
  }

  lemma ReturnKeepsWell(config: Config, s: State, t: CallId, outcome: Result<Record>)
    requires AllWell(config, s.table, s.jobs) && F.IsRunning(s.flight, t)
    requires outcome.Ok? ==> IsMade(config, outcome.value)
    ensures var s' := ApplyReturn(s, t, outcome); AllWell(config, s'.table, s'.jobs)
  {
    hide WellEnrolled, AllWell, IsMade, ValidRecord;
    if outcome.Ok? {
      MadeIsWellEnrolled(config, outcome.value);
      RecordKeepsWell(config, s.table, s.jobs, s.flight.keys[t], outcome.value);
    }
  }

  lemma QuietStepKeepsWell(config: Config, s: State, step: Step)
    requires AllWell(config, s.table, s.jobs)
    requires step.Invoke? || step.SaveOutside? || step.Read? || step.Look? || step.Wake? || step.Cancel?
    requires step.SaveOutside? ==> WellEnrolled(config, step.record)
    ensures var s' := Apply(config, s, step); AllWell(config, s'.table, s'.jobs)
  {
    hide WellEnrolled, AllWell, F.Park, F.Begin, F.Leave, F.Wake, F.Arrive;
    if Apply(config, s, step) != s {
      match step
      case Invoke(t, request) => JobKeepsWell(config, s.table, s.jobs, t, Reading(request));
      case SaveOutside(t, record) => JobKeepsWell(config, s.table, s.jobs, t, Saving(record));
      case Read(t) =>
        var request := s.jobs[t].request;
        if request.agentDID in s.table {
          StoredIsWell(config, s, request.agentDID);
          JobKeepsWell(config, s.table, s.jobs, t, Updating(request, s.table[request.agentDID]));
        } else {
          JobKeepsWell(config, s.table, s.jobs, t, Creating(request));
        }
      case _ =>
    }
  }

  lemma StoredIsWell(config: Config, s: State, did: string)
    requires AllWell(config, s.table, s.jobs) && did in s.table
    ensures WellEnrolled(config, s.table[did])
  {
  }

  lemma ApplyKeepsWell(config: Config, s: State, step: Step)
    requires AllWell(config, s.table, s.jobs)
    requires step.Return? && step.outcome.Ok? ==> IsMade(config, step.outcome.value)
    requires step.SaveOutside? ==> WellEnrolled(config, step.record)
    ensures var s' := Apply(config, s, step); AllWell(config, s'.table, s'.jobs)
  {
    hide WellEnrolled, AllWell, IsMade, ApplyRead, ApplySettle, ApplyLook, ApplySave, ApplyReturn, Starting, Answering;
    match step
    case Settle(t, decision, now) => if At(s, t) && s.jobs[t].Updating? { SettleKeepsWell(config, s, t, decision, now); }
    case Save(t) => if At(s, t) && s.jobs[t].Saving? { SaveKeepsWell(config, s, t); }
    case Return(t, outcome) => if F.IsRunning(s.flight, t) { ReturnKeepsWell(config, s, t, outcome); }
    case _ => QuietStepKeepsWell(config, s, step);
  }

  /** In every interleaving each stored record has all required claims, and its
      acknowledgements are catalog documents, each once, although updates are saved from
      stale snapshots. */
  lemma {:induction false} StoredRecordsAreComplete(config: Config, run: seq<Step>)
    requires Genuine(config, run)
    ensures var s := After(config, run);
            AllWell(config, s.table, s.jobs) && forall did :: did in s.table ==> WellEnrolled(config, s.table[did])
  {
    if run != [] {
      hide AllWell, WellEnrolled, Apply, IsMade;
      var n := |run| - 1;
      assert run[n] in run;
      StoredRecordsAreComplete(config, run[..n]);
      ApplyKeepsWell(config, After(config, run[..n]), run[n]);
    }
    TableIsWell(config, After(config, run));
  }

  lemma TableIsWell(config: Config, s: State)
    requires AllWell(config, s.table, s.jobs)
    ensures forall did :: did in s.table ==> WellEnrolled(config, s.table[did])
  {
    hide WellEnrolled;
  }
}
