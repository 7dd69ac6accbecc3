/** Every interleaving of ExecuteIdempotent calls on one store, with a clock that
never goes back.

The history part of the state remembers, for each call, when it looked and when it
ended.  `ticks` counts the steps, so two moments of a run can be compared.  */
module IdempotencyRuns {
  import opened Prelude
  import opened IdempotencyStore
  import F = Flights

  type CallId = F.CallId

  /** A lookup: the step it happened at and the clock it read under the lock. */
  datatype Moment = Moment(tick: nat, clock: Time)

  datatype Answer =
    | Created(response: Response, start: Moment, end: nat)   // this call executed, and its response is stored
    | Failed(start: Moment, end: nat)                        // this call executed, and its execution failed
    | Replayed(response: Response, at: Moment)
    | Conflicted(at: Moment)
    | Cancelled

  datatype State = State(
    now: Time,
    ticks: nat,
    table: Table,
    flight: F.Flight<string>,
    calls: map<CallId, Input>,
    started: map<CallId, Moment>,
    answers: map<CallId, Answer>)

  datatype Step =
    | Tick(now: Time)
    | Invoke(call: CallId, input: Input)
    | Look(call: CallId)
    | Wake(call: CallId)
    | Cancel(call: CallId)
    | Return(call: CallId, outcome: Result<Response>)

  const START := State(ZERO_TIME, 0, map[], F.Empty(), map[], map[], map[])

  function Answering(s: State, t: CallId, answer: Answer): State
    requires F.CanLeave(s.flight, t)
  {
    s.(answers := s.answers[t := answer], flight := F.Leave(s.flight, t))
  }

  function ApplyLook(s: State, t: CallId): State
    requires F.IsReady(s.flight, t) && t in s.calls && s.flight.keys[t] == StoreKey(s.calls[t])
  {
    var swept := s.(table := Swept(s.table, s.now));
    var moment := Moment(s.ticks, s.now);
    match Enter(swept.table, s.flight.pending, s.calls[t])
    case Replay(response) => Answering(swept, t, Replayed(response, moment))
    case Conflict => Answering(swept, t, Conflicted(moment))
    case Wait(_) => swept.(flight := F.Park(s.flight, t))
    case Execute => swept.(flight := F.Begin(s.flight, t), started := s.started[t := moment])
  }

  function ApplyReturn(s: State, t: CallId, outcome: Result<Response>): State
    requires F.IsRunning(s.flight, t) && t in s.calls && t in s.started
  {
    s.(table := Commit(s.table, s.calls[t], outcome, s.now),
       flight := F.Finish(s.flight, t),
       answers := s.answers[t := if outcome.Ok? then Created(Dated(outcome.value, s.now), s.started[t], s.ticks)
                                 else Failed(s.started[t], s.ticks)])
  }

  function Act(s: State, step: Step): State {
    match step
    case Tick(now) =>
      if now < s.now then s else s.(now := now)
    case Invoke(t, input) =>
      if t in s.calls || t in s.flight.phases || !ValidInput(input) then s
      else s.(calls := s.calls[t := input], flight := F.Arrive(s.flight, t, StoreKey(input)))
    case Look(t) =>
      if F.IsReady(s.flight, t) && t in s.calls && s.flight.keys[t] == StoreKey(s.calls[t]) then ApplyLook(s, t) else s
    case Wake(t) =>
      if F.CanWake(s.flight, t) then s.(flight := F.Wake(s.flight, t)) else s
    case Cancel(t) =>
      if F.CanLeave(s.flight, t) then Answering(s, t, Cancelled) else s
    case Return(t, outcome) =>
      if F.IsRunning(s.flight, t) && t in s.calls && t in s.started then ApplyReturn(s, t, outcome) else s
  }

  function Apply(s: State, step: Step): State {
    var s' := Act(s, step);
    s'.(ticks := s.ticks + 1)
  }

  function After(run: seq<Step>): State {
    if run == [] then START else Apply(After(run[..|run| - 1]), run[|run| - 1])
  }

  // ------------------------------------------------------------ invariant

  predicate Executed(a: Answer) {
    a.Created? || a.Failed?
  }

  predicate SameKey(calls: map<CallId, Input>, t: CallId, u: CallId) {
    t in calls && u in calls && StoreKey(calls[t]) == StoreKey(calls[u])
  }

  /** The moment lies after the end of execution `a` and, if `a` stored a response,
      after that response's hour. */
  predicate Late(a: Answer, m: Moment)
    requires Executed(a)
  {
    a.end < m.tick && (a.Created? ==> m.clock >= a.response.createdAt + HOUR)
  }

  /** The moment falls inside the hour of the response that `a` stored. */
  predicate Within(a: Answer, m: Moment) {
    a.Created? && a.end < m.tick && m.clock < a.response.createdAt + HOUR
  }

  /** The single-flight key of a call is the store key of its input. */
  ghost predicate Keyed(f: F.Flight<string>, calls: map<CallId, Input>) {
    && F.Inv(f)
    && calls.Keys == f.keys.Keys
    && (forall t :: t in calls ==> f.keys[t] == StoreKey(calls[t]))
  }

  /** An answered call has finished; a running one has looked. */
  ghost predicate Paced(f: F.Flight<string>, started: map<CallId, Moment>, answers: map<CallId, Answer>) {
    && (forall t :: t in answers ==> t in f.phases && f.phases[t].Finished?)
    && (forall t :: F.IsRunning(f, t) ==> t in started)
  }

  /** A key that is being executed has no stored response. */
  ghost predicate Free(f: F.Flight<string>, table: Table) {
    forall k :: k in f.pending ==> k !in table
  }

  /** No recorded moment lies in the future. */
  ghost predicate Past(started: map<CallId, Moment>, answers: map<CallId, Answer>, ticks: nat) {
    && (forall t :: t in started ==> started[t].tick < ticks)
    && (forall t :: t in answers && Executed(answers[t]) ==> answers[t].start.tick <= answers[t].end < ticks)
    && (forall t :: t in answers && (answers[t].Replayed? || answers[t].Conflicted?) ==> answers[t].at.tick < ticks)
  }

  /** A stored response stays for its hour, whoever looks. */
  ghost predicate Kept(calls: map<CallId, Input>, answers: map<CallId, Answer>, table: Table, now: Time) {
    forall t :: t in answers && t in calls && answers[t].Created? && now < answers[t].response.createdAt + HOUR ==>
      StoreKey(calls[t]) in table && table[StoreKey(calls[t])] == Record(calls[t], answers[t].response)
  }

  /** Call `t` executed and stored this record. */
  ghost predicate Wrote(calls: map<CallId, Input>, answers: map<CallId, Answer>, t: CallId, record: Record) {
    t in answers && t in calls && answers[t].Created? && record == Record(calls[t], answers[t].response)
  }

  ghost predicate Authored(calls: map<CallId, Input>, answers: map<CallId, Answer>, table: Table) {
    forall k :: k in table ==> k == StoreKey(table[k].input) && exists t :: Wrote(calls, answers, t, table[k])
  }

  /** A running execution started after the end and the hour of every earlier one of its key. */
  ghost predicate RunningLate(f: F.Flight<string>, calls: map<CallId, Input>, started: map<CallId, Moment>, answers: map<CallId, Answer>) {
    forall t, u :: F.IsRunning(f, t) && t in started && u in answers && Executed(answers[u]) && SameKey(calls, t, u) ==>
      Late(answers[u], started[t])
  }

  /** Executions of one key never overlap, and never start inside an earlier one's hour. */
  ghost predicate Apart(calls: map<CallId, Input>, answers: map<CallId, Answer>) {
    forall t, u :: t in answers && u in answers && t != u && Executed(answers[t]) && Executed(answers[u]) && SameKey(calls, t, u) ==>
      Late(answers[u], answers[t].start) || Late(answers[t], answers[u].start)
  }

  /** What a call that did not execute was told, given the responses stored before it looked. */
  ghost predicate ToldRight(calls: map<CallId, Input>, answers: map<CallId, Answer>, t: CallId, answer: Answer) {
    match answer
    case Replayed(response, at) =>
      && (forall u :: u in answers && SameKey(calls, t, u) && Within(answers[u], at) ==>
            Matches(calls[u], calls[t]) && answers[u].response == response)
      && (exists u :: u in answers && SameKey(calls, t, u) && Within(answers[u], at) && Matches(calls[u], calls[t]))
    case Conflicted(at) =>
      && (forall u :: u in answers && SameKey(calls, t, u) && Within(answers[u], at) ==> !Matches(calls[u], calls[t]))
      && (exists u :: u in answers && SameKey(calls, t, u) && Within(answers[u], at))
    case _ => true
  }

  ghost predicate AllToldRight(calls: map<CallId, Input>, answers: map<CallId, Answer>) {
    forall t :: t in answers && t in calls ==> ToldRight(calls, answers, t, answers[t])
  }

  ghost predicate Inv(s: State) {
    && Keyed(s.flight, s.calls)
    && Paced(s.flight, s.started, s.answers)
    && Free(s.flight, s.table)
    && Past(s.started, s.answers, s.ticks)
    && Kept(s.calls, s.answers, s.table, s.now)
    && Authored(s.calls, s.answers, s.table)
    && RunningLate(s.flight, s.calls, s.started, s.answers)
    && Apart(s.calls, s.answers)
    && AllToldRight(s.calls, s.answers)
  }

  // --------------------------------------------------- each part is kept

  lemma KeptAfterSweep(calls: map<CallId, Input>, answers: map<CallId, Answer>, table: Table, now: Time)
    requires Kept(calls, answers, table, now) && Authored(calls, answers, table)
    ensures Kept(calls, answers, Swept(table, now), now) && Authored(calls, answers, Swept(table, now))
  {
  }

  lemma KeptLater(calls: map<CallId, Input>, answers: map<CallId, Answer>, table: Table, now: Time, later: Time)
    requires Kept(calls, answers, table, now) && now <= later
    ensures Kept(calls, answers, table, later)
  {
  }

  /** A call that did not execute adds its answer. */
  lemma AnswerKeepsParts(calls: map<CallId, Input>, answers: map<CallId, Answer>, table: Table, now: Time, t: CallId, answer: Answer)
    requires t !in answers && !Executed(answer)
    requires Kept(calls, answers, table, now) && Authored(calls, answers, table)
    requires Apart(calls, answers) && AllToldRight(calls, answers) && ToldRight(calls, answers, t, answer)
    ensures var more := answers[t := answer];
            Kept(calls, more, table, now) && Authored(calls, more, table) && Apart(calls, more) && AllToldRight(calls, more)
  {
    var more := answers[t := answer];
    forall k | k in table ensures exists u :: Wrote(calls, more, u, table[k]) {
      var u :| Wrote(calls, answers, u, table[k]);
      assert Wrote(calls, more, u, table[k]);
    }
    forall u | u in more && u in calls ensures ToldRight(calls, more, u, more[u]) {
      assert ToldRight(calls, answers, u, more[u]);
      ToldRightSurvives(calls, answers, more, u, more[u]);
    }
  }

  /** Answers that arrive later, and executions that end later, do not change what
      a call should have been told when it looked. */
  lemma ToldRightSurvives(calls: map<CallId, Input>, answers: map<CallId, Answer>, more: map<CallId, Answer>, t: CallId, answer: Answer)
    requires ToldRight(calls, answers, t, answer)
    requires forall u :: u in answers ==> u in more && more[u] == answers[u]
    requires forall u :: u in more && u !in answers && Executed(more[u]) && (answer.Replayed? || answer.Conflicted?) ==>
               more[u].end >= answer.at.tick
    ensures ToldRight(calls, more, t, answer)
  {
    if answer.Replayed? {
      var u :| u in answers && SameKey(calls, t, u) && Within(answers[u], answer.at) && Matches(calls[u], calls[t]);
      assert u in more && SameKey(calls, t, u) && Within(more[u], answer.at);
    } else if answer.Conflicted? {
      var u :| u in answers && SameKey(calls, t, u) && Within(answers[u], answer.at);
      assert u in more && SameKey(calls, t, u) && Within(more[u], answer.at);
    }
  }

  /** What a lookup finds in the swept table is what every stored response within
      its hour dictates. */
  lemma FoundIsRight(s: State, t: CallId)
    requires Past(s.started, s.answers, s.ticks) && Kept(s.calls, s.answers, s.table, s.now) && Authored(s.calls, s.answers, s.table)
    requires t in s.calls && StoreKey(s.calls[t]) in Swept(s.table, s.now)
    ensures var moment := Moment(s.ticks, s.now);
            match Enter(Swept(s.table, s.now), s.flight.pending, s.calls[t])
            case Replay(response) => ToldRight(s.calls, s.answers, t, Replayed(response, moment))
            case Conflict => ToldRight(s.calls, s.answers, t, Conflicted(moment))
            case _ => false
  {
    var key := StoreKey(s.calls[t]);
    var record := s.table[key];
    var u :| Wrote(s.calls, s.answers, u, record);
    assert SameKey(s.calls, t, u) && Within(s.answers[u], Moment(s.ticks, s.now));
    forall v | v in s.answers && SameKey(s.calls, t, v) && Within(s.answers[v], Moment(s.ticks, s.now))
      ensures record == Record(s.calls[v], s.answers[v].response)
    {
      assert StoreKey(s.calls[v]) == key;
    }
  }

  /** A lookup that finds nothing comes after every earlier execution and its hour. */
  lemma NothingFoundMeansLate(s: State, t: CallId, u: CallId)
    requires Past(s.started, s.answers, s.ticks) && Kept(s.calls, s.answers, s.table, s.now)
    requires t in s.calls && StoreKey(s.calls[t]) !in Swept(s.table, s.now)
    requires u in s.answers && Executed(s.answers[u]) && SameKey(s.calls, t, u)
    ensures Late(s.answers[u], Moment(s.ticks, s.now))
  {
  }

  lemma StepKeepsKeyed(f: F.Flight<string>, g: F.Flight<string>, calls: map<CallId, Input>, t: CallId)
    requires Keyed(f, calls) && F.Step(f, g, t)
    ensures Keyed(g, calls)
  {
    F.StepKeepsInv(f, g, t);
  }

  lemma StepKeepsPaced(f: F.Flight<string>, g: F.Flight<string>, started: map<CallId, Moment>, answers: map<CallId, Answer>, t: CallId, answer: Answer)
    requires Paced(f, started, answers) && F.Step(f, g, t)
    requires F.IsRunning(g, t) ==> t in started
    ensures Paced(g, started, answers) && t !in answers
    ensures g.phases[t].Finished? ==> Paced(g, started, answers[t := answer])
  {
    forall u | F.IsRunning(g, u) ensures u in started {
      if u != t { assert F.IsRunning(f, u); }
    }
  }

  lemma StepKeepsRunningLate(f: F.Flight<string>, g: F.Flight<string>, calls: map<CallId, Input>, started: map<CallId, Moment>, answers: map<CallId, Answer>, t: CallId)
    requires RunningLate(f, calls, started, answers) && F.Step(f, g, t) && !F.IsRunning(g, t)
    ensures RunningLate(g, calls, started, answers)
    ensures forall answer :: !Executed(answer) ==> RunningLate(g, calls, started, answers[t := answer])
  {
    forall u, v | F.IsRunning(g, u) && u in started && v in answers && Executed(answers[v]) && SameKey(calls, u, v)
      ensures Late(answers[v], started[u])
    {
      assert F.IsRunning(f, u);
    }
    forall answer | !Executed(answer) ensures RunningLate(g, calls, started, answers[t := answer]) {
      forall u, v | F.IsRunning(g, u) && u in started && v in answers[t := answer] && Executed(answers[t := answer][v]) && SameKey(calls, u, v)
        ensures Late(answers[t := answer][v], started[u])
      {
        assert F.IsRunning(f, u);
      }
    }
  }

  // ---------------------------------------------------------- an execution ends

  /** An execution that ends stores over nothing. */
  lemma ReturnKeepsTable(s: State, t: CallId, outcome: Result<Response>)
    requires Kept(s.calls, s.answers, s.table, s.now) && Authored(s.calls, s.answers, s.table)
    requires F.IsRunning(s.flight, t) && t in s.calls && t in s.started && t !in s.answers
    requires StoreKey(s.calls[t]) !in s.table
    ensures var s' := ApplyReturn(s, t, outcome);
            Kept(s.calls, s'.answers, s'.table, s.now) && Authored(s.calls, s'.answers, s'.table)
  {
    var s' := ApplyReturn(s, t, outcome);
    forall k | k in s'.table ensures k == StoreKey(s'.table[k].input) && exists u :: Wrote(s.calls, s'.answers, u, s'.table[k]) {
      if k in s.table {
        var u :| Wrote(s.calls, s.answers, u, s.table[k]);
        assert Wrote(s.calls, s'.answers, u, s'.table[k]);
      } else {
        assert Wrote(s.calls, s'.answers, t, s'.table[k]);
      }
    }
  }

  lemma ReturnKeepsApart(f: F.Flight<string>, calls: map<CallId, Input>, started: map<CallId, Moment>, answers: map<CallId, Answer>, t: CallId, answer: Answer)
    requires RunningLate(f, calls, started, answers) && Apart(calls, answers)
    requires F.IsRunning(f, t) && t in started && t !in answers && Executed(answer) && answer.start == started[t]
    ensures Apart(calls, answers[t := answer])
  {
  }

  lemma ReturnKeepsAnswers(calls: map<CallId, Input>, started: map<CallId, Moment>, answers: map<CallId, Answer>, ticks: nat, t: CallId, answer: Answer)
    requires Past(started, answers, ticks) && AllToldRight(calls, answers)
    requires t !in answers && Executed(answer) && answer.end == ticks
    ensures AllToldRight(calls, answers[t := answer])
  {
    var more := answers[t := answer];
    forall u | u in more && u in calls ensures ToldRight(calls, more, u, more[u]) {
      if u != t {
        assert ToldRight(calls, answers, u, answers[u]);
        ToldRightSurvives(calls, answers, more, u, answers[u]);
      }
    }
  }

  lemma ReturnKeepsRunningLate(f: F.Flight<string>, calls: map<CallId, Input>, started: map<CallId, Moment>, answers: map<CallId, Answer>, t: CallId, answer: Answer)
    requires Keyed(f, calls) && RunningLate(f, calls, started, answers) && F.IsRunning(f, t)
    ensures RunningLate(F.Finish(f, t), calls, started, answers[t := answer])
  {
    var g := F.Finish(f, t);
    var more := answers[t := answer];
    forall u, v | F.IsRunning(g, u) && u in started && v in more && Executed(more[v]) && SameKey(calls, u, v)
      ensures Late(more[v], started[u])
    {
      assert F.IsRunning(f, u);
      if v == t { F.SingleFlight(f, t, u); }
    }
  }

  lemma BeginKeepsRunningLate(s: State, t: CallId)
    requires Past(s.started, s.answers, s.ticks) && Kept(s.calls, s.answers, s.table, s.now)
    requires RunningLate(s.flight, s.calls, s.started, s.answers)
    requires F.IsReady(s.flight, t) && s.flight.keys[t] !in s.flight.pending
    requires t in s.calls && StoreKey(s.calls[t]) !in Swept(s.table, s.now)
    ensures RunningLate(F.Begin(s.flight, t), s.calls, s.started[t := Moment(s.ticks, s.now)], s.answers)
  {
    var g, started := F.Begin(s.flight, t), s.started[t := Moment(s.ticks, s.now)];
    forall u, v | F.IsRunning(g, u) && u in started && v in s.answers && Executed(s.answers[v]) && SameKey(s.calls, u, v)
      ensures Late(s.answers[v], started[u])
    {
      if u == t {
        NothingFoundMeansLate(s, t, v);
      } else {
        assert F.IsRunning(s.flight, u);
      }
    }
  }

  // ------------------------------------------------------- the whole step

  lemma PastLater(started: map<CallId, Moment>, answers: map<CallId, Answer>, ticks: nat, t: CallId)
    requires Past(started, answers, ticks)
    ensures Past(started, answers, ticks + 1)
    ensures forall m: Moment :: m.tick == ticks ==> Past(started[t := m], answers, ticks + 1)
    ensures forall a: Answer :: (Executed(a) ==> a.start.tick <= a.end == ticks) && (a.Replayed? || a.Conflicted? ==> a.at.tick == ticks) ==>
              Past(started, answers[t := a], ticks + 1)
  {
  }

  lemma LeaveIsQuiet(f: F.Flight<string>, table: Table, t: CallId)
    requires F.CanLeave(f, t) && Free(f, table)
    ensures var g := F.Leave(f, t);
            F.Step(f, g, t) && !F.IsRunning(g, t) && g.phases[t].Finished? && Free(g, table)
  {
  }

  lemma AnswerKeepsInv(s: State, t: CallId, answer: Answer)
    requires Inv(s) && F.CanLeave(s.flight, t) && !Executed(answer)
    requires ToldRight(s.calls, s.answers, t, answer)
    requires answer.Replayed? || answer.Conflicted? ==> answer.at.tick == s.ticks
    ensures Inv(Answering(s, t, answer).(ticks := s.ticks + 1))
  {
    hide Keyed, Paced, Free, Past, Kept, Authored, RunningLate, Apart, AllToldRight, ToldRight, F.Step, F.Leave;
    var g := F.Leave(s.flight, t);
    LeaveIsQuiet(s.flight, s.table, t);
    StepKeepsKeyed(s.flight, g, s.calls, t);
    StepKeepsPaced(s.flight, g, s.started, s.answers, t, answer);
    StepKeepsRunningLate(s.flight, g, s.calls, s.started, s.answers, t);
    PastLater(s.started, s.answers, s.ticks, t);
    AnswerKeepsParts(s.calls, s.answers, s.table, s.now, t, answer);
  }

  lemma FreeWhilePending(f: F.Flight<string>, g: F.Flight<string>, table: Table)
    requires Free(f, table) && g.pending == f.pending
    ensures Free(g, table)
  {
  }

  /** Parking or waking changes nothing but the flight. */
  lemma WaitKeepsInv(s: State, g: F.Flight<string>, t: CallId)
    requires Inv(s) && F.Step(s.flight, g, t) && !F.IsRunning(g, t) && g.pending == s.flight.pending
    ensures Inv(s.(flight := g, ticks := s.ticks + 1))
  {
    hide Keyed, Paced, Free, Past, Kept, Authored, RunningLate, Apart, AllToldRight, F.Step;
    FreeWhilePending(s.flight, g, s.table);
    StepKeepsKeyed(s.flight, g, s.calls, t);
    StepKeepsPaced(s.flight, g, s.started, s.answers, t, Cancelled);
    StepKeepsRunningLate(s.flight, g, s.calls, s.started, s.answers, t);
    PastLater(s.started, s.answers, s.ticks, t);
  }

  lemma BeginKeepsInv(s: State, t: CallId)
    requires Inv(s) && F.IsReady(s.flight, t) && s.flight.keys[t] !in s.flight.pending && t in s.calls
    requires StoreKey(s.calls[t]) !in s.table && Swept(s.table, s.now) == s.table
    ensures Inv(s.(flight := F.Begin(s.flight, t), started := s.started[t := Moment(s.ticks, s.now)], ticks := s.ticks + 1))
  {
    hide Keyed, Paced, Free, Past, Kept, Authored, RunningLate, Apart, AllToldRight, F.Step, F.Begin;
    BeginKeepsRunningLate(s, t);
    BeginIsFree(s, t);
    var g, moment := F.Begin(s.flight, t), Moment(s.ticks, s.now);
    StepKeepsKeyed(s.flight, g, s.calls, t);
    StepKeepsPaced(s.flight, g, s.started[t := moment], s.answers, t, Cancelled);
    PastLater(s.started, s.answers, s.ticks, t);
  }

  lemma BeginIsFree(s: State, t: CallId)
    requires Inv(s) && F.IsReady(s.flight, t) && s.flight.keys[t] !in s.flight.pending && t in s.calls && StoreKey(s.calls[t]) !in s.table
    ensures F.Step(s.flight, F.Begin(s.flight, t), t) && Free(F.Begin(s.flight, t), s.table)
    ensures Paced(s.flight, s.started[t := Moment(s.ticks, s.now)], s.answers)
  {
    hide Kept, Authored, RunningLate, Apart, AllToldRight, Past;
  }

  lemma SweepKeepsInv(s: State)
    requires Inv(s)
    ensures var swept := Swept(s.table, s.now); Swept(swept, s.now) == swept && Inv(s.(table := swept))
  {
    var swept := Swept(s.table, s.now);
    assert Free(s.flight, swept);
    hide Keyed, Paced, Free, Past, RunningLate, Apart, AllToldRight;
    KeptAfterSweep(s.calls, s.answers, s.table, s.now);
  }

  lemma LookKeepsInv(s: State, t: CallId)
    requires Inv(s) && F.IsReady(s.flight, t) && t in s.calls && s.flight.keys[t] == StoreKey(s.calls[t])
    ensures Inv(ApplyLook(s, t).(ticks := s.ticks + 1))
  {
    hide Keyed, Paced, Free, Past, Kept, Authored, RunningLate, Apart, AllToldRight, ToldRight, Swept;
    var moment := Moment(s.ticks, s.now);
    var swept := s.(table := Swept(s.table, s.now));
    SweepKeepsInv(s);
    match Enter(swept.table, s.flight.pending, s.calls[t])
    case Replay(response) =>
      FoundIsRight(swept, t);
      AnswerKeepsInv(swept, t, Replayed(response, moment));
    case Conflict =>
      FoundIsRight(swept, t);
      AnswerKeepsInv(swept, t, Conflicted(moment));
    case Wait(_) =>
      WaitKeepsInv(swept, F.Park(s.flight, t), t);
    case Execute =>
      BeginKeepsInv(swept, t);
  }

  lemma ReturnFrees(f: F.Flight<string>, calls: map<CallId, Input>, table: Table, t: CallId, outcome: Result<Response>, now: Time)
    requires Keyed(f, calls) && Free(f, table) && F.IsRunning(f, t) && t in calls
    ensures StoreKey(calls[t]) !in table && Free(F.Finish(f, t), Commit(table, calls[t], outcome, now))
    ensures F.Step(f, F.Finish(f, t), t) && !F.IsRunning(F.Finish(f, t), t) && F.Finish(f, t).phases[t].Finished?
  {
  }

  lemma StartedBefore(started: map<CallId, Moment>, answers: map<CallId, Answer>, ticks: nat, t: CallId)
    requires Past(started, answers, ticks) && t in started
    ensures started[t].tick < ticks
  {
  }

  lemma ReturnKeepsInv(s: State, t: CallId, outcome: Result<Response>)
    requires Inv(s) && F.IsRunning(s.flight, t) && t in s.calls && t in s.started
    ensures Inv(ApplyReturn(s, t, outcome).(ticks := s.ticks + 1))
  {
    hide Keyed, Paced, Free, Past, Kept, Authored, RunningLate, Apart, AllToldRight, F.Step, F.Finish, Commit;
    var g := F.Finish(s.flight, t);
    var answer := ApplyReturn(s, t, outcome).answers[t];
    ReturnFrees(s.flight, s.calls, s.table, t, outcome, s.now);
    StartedBefore(s.started, s.answers, s.ticks, t);
    StepKeepsKeyed(s.flight, g, s.calls, t);
    StepKeepsPaced(s.flight, g, s.started, s.answers, t, answer);
    ReturnKeepsTable(s, t, outcome);
    ReturnKeepsApart(s.flight, s.calls, s.started, s.answers, t, answer);
    ReturnKeepsAnswers(s.calls, s.started, s.answers, s.ticks, t, answer);
    ReturnKeepsRunningLate(s.flight, s.calls, s.started, s.answers, t, answer);
    PastLater(s.started, s.answers, s.ticks, t);
  }

  lemma ToldRightWithMoreCalls(calls: map<CallId, Input>, more: map<CallId, Input>, answers: map<CallId, Answer>, t: CallId, answer: Answer)
    requires ToldRight(calls, answers, t, answer) && t in calls
    requires forall u :: u in calls ==> u in more && more[u] == calls[u]
    requires answers.Keys <= calls.Keys
    ensures ToldRight(more, answers, t, answer)
  {
    if answer.Replayed? {
      var u :| u in answers && SameKey(calls, t, u) && Within(answers[u], answer.at) && Matches(calls[u], calls[t]);
      assert u in answers && SameKey(more, t, u) && Within(answers[u], answer.at);
    } else if answer.Conflicted? {
      var u :| u in answers && SameKey(calls, t, u) && Within(answers[u], answer.at);
      assert u in answers && SameKey(more, t, u) && Within(answers[u], answer.at);
    }
  }

  /** A new call changes nothing for the calls that are already there. */
  lemma ArrivalKeepsParts(calls: map<CallId, Input>, more: map<CallId, Input>, answers: map<CallId, Answer>, table: Table, now: Time)
    requires answers.Keys <= calls.Keys
    requires forall u :: u in calls ==> u in more && more[u] == calls[u]
    requires Kept(calls, answers, table, now) && Authored(calls, answers, table) && Apart(calls, answers) && AllToldRight(calls, answers)
    ensures Kept(more, answers, table, now) && Authored(more, answers, table) && Apart(more, answers) && AllToldRight(more, answers)
  {
    forall k | k in table ensures exists u :: Wrote(more, answers, u, table[k]) {
      var u :| Wrote(calls, answers, u, table[k]);
      assert Wrote(more, answers, u, table[k]);
    }
    forall u | u in answers ensures ToldRight(more, answers, u, answers[u]) {
      assert ToldRight(calls, answers, u, answers[u]);
      ToldRightWithMoreCalls(calls, more, answers, u, answers[u]);
    }
  }

  lemma ArrivalKeepsKeyed(f: F.Flight<string>, calls: map<CallId, Input>, t: CallId, input: Input)
    requires Keyed(f, calls) && t !in f.phases
    ensures Keyed(F.Arrive(f, t, StoreKey(input)), calls[t := input])
  {
    F.ArriveKeepsInv(f, t, StoreKey(input));
  }

  lemma ArrivalKeepsFlight(f: F.Flight<string>, calls: map<CallId, Input>, started: map<CallId, Moment>, answers: map<CallId, Answer>, t: CallId, input: Input)
    requires f.phases.Keys == calls.Keys && Paced(f, started, answers) && RunningLate(f, calls, started, answers)
    requires t !in f.phases
    ensures var g, more := F.Arrive(f, t, StoreKey(input)), calls[t := input];
            Paced(g, started, answers) && RunningLate(g, more, started, answers)
    ensures answers.Keys <= calls.Keys
  {
    var g, more := F.Arrive(f, t, StoreKey(input)), calls[t := input];
    forall u | F.IsRunning(g, u) ensures F.IsRunning(f, u) && u in started {
    }
  }

  lemma ArrivalIsFree(s: State, t: CallId, input: Input)
    requires Inv(s) && t !in s.flight.phases
    ensures Free(F.Arrive(s.flight, t, StoreKey(input)), s.table) && s.flight.phases.Keys == s.calls.Keys
  {
    hide Kept, Authored, RunningLate, Apart, AllToldRight, Past, Paced;
  }

  lemma InvokeKeepsInv(s: State, t: CallId, input: Input)
    requires Inv(s) && t !in s.calls && t !in s.flight.phases
    ensures Inv(s.(calls := s.calls[t := input], flight := F.Arrive(s.flight, t, StoreKey(input)), ticks := s.ticks + 1))
  {
    ArrivalIsFree(s, t, input);
    hide Keyed, Paced, Free, Past, Kept, Authored, RunningLate, Apart, AllToldRight, F.Arrive;
    ArrivalKeepsKeyed(s.flight, s.calls, t, input);
    ArrivalKeepsFlight(s.flight, s.calls, s.started, s.answers, t, input);
    ArrivalKeepsParts(s.calls, s.calls[t := input], s.answers, s.table, s.now);
    PastLater(s.started, s.answers, s.ticks, t);
  }

  lemma TickKeepsInv(s: State, now: Time)
    requires Inv(s) && s.now <= now
    ensures Inv(s.(now := now, ticks := s.ticks + 1)) && Inv(s.(ticks := s.ticks + 1))
  {
    hide Keyed, Paced, Free, Past, Kept, Authored, RunningLate, Apart, AllToldRight;
    KeptLater(s.calls, s.answers, s.table, s.now, now);
    PastLater(s.started, s.answers, s.ticks, 0);
  }

  lemma ApplyKeepsInv(s: State, step: Step)
    requires Inv(s)
    ensures Inv(Apply(s, step))
  {
    hide Keyed, Paced, Free, Past, Kept, Authored, RunningLate, Apart, AllToldRight, ToldRight, ApplyLook, ApplyReturn;
    if Act(s, step) == s {
      TickKeepsInv(s, s.now);
    } else {
      match step
      case Tick(now) => TickKeepsInv(s, now);
      case Invoke(t, input) => InvokeKeepsInv(s, t, input);
      case Look(t) => LookKeepsInv(s, t);
      case Wake(t) => WaitKeepsInv(s, F.Wake(s.flight, t), t);
      case Cancel(t) => CancelKeepsInv(s, t);
      case Return(t, outcome) => ReturnKeepsInv(s, t, outcome);
    }
  }

  lemma CancelKeepsInv(s: State, t: CallId)
    requires Inv(s) && F.CanLeave(s.flight, t)
    ensures Inv(Answering(s, t, Cancelled).(ticks := s.ticks + 1))
  {
    hide Keyed, Paced, Free, Past, Kept, Authored, RunningLate, Apart, AllToldRight;
    AnswerKeepsInv(s, t, Cancelled);
  }

  lemma {:induction false} RunKeepsInv(run: seq<Step>)
    ensures Inv(After(run))
  {
    if run != [] {
      RunKeepsInv(run[..|run| - 1]);
      ApplyKeepsInv(After(run[..|run| - 1]), run[|run| - 1]);
    } else {
      F.EmptyInv<string>();
    }
  }

  // -------------------------------------------------------------- theorems

  ghost predicate HasCreated(s: State, t: CallId) {
    t in s.answers && t in s.calls && s.answers[t].Created?
  }

  /** The moment at which a call looked and was answered or began to execute. */
  function Decided(a: Answer): Moment
    requires !a.Cancelled?
  {
    if Executed(a) then a.start else a.at
  }

  /** At most one execution per key is in flight. */
  lemma OneExecutionPerKey(run: seq<Step>, t: CallId, u: CallId)
    requires F.IsRunning(After(run).flight, t) && F.IsRunning(After(run).flight, u)
    requires SameKey(After(run).calls, t, u)
    ensures t == u
  {
    RunKeepsInv(run);
    F.SingleFlight(After(run).flight, t, u);
  }

  /** Two calls on one key that both created never overlapped, and the later one
      looked at least an hour after the creation time of the earlier response. */
  lemma CreationsAreAnHourApart(run: seq<Step>, t: CallId, u: CallId)
    requires HasCreated(After(run), t) && HasCreated(After(run), u) && t != u
    requires SameKey(After(run).calls, t, u) && After(run).answers[t].end <= After(run).answers[u].end
    ensures var first, second := After(run).answers[t], After(run).answers[u];
            && first.end < second.start.tick
            && second.start.clock >= first.response.createdAt + HOUR
  {
    RunKeepsInv(run);
    var s := After(run);
    assert Late(s.answers[u], s.answers[t].start) || Late(s.answers[t], s.answers[u].start);
  }

  /** While a response is within its hour, every other call on its key that looks
      is answered without executing: with exactly that response when the inputs
      match, and with a conflict otherwise. */
  lemma WithinTheHourNobodyExecutes(run: seq<Step>, u: CallId, t: CallId)
    requires var s := After(run);
             && HasCreated(s, u) && t in s.answers && !s.answers[t].Cancelled? && t != u
             && SameKey(s.calls, t, u) && Within(s.answers[u], Decided(s.answers[t]))
    ensures var s := After(run); var at := Decided(s.answers[t]);
            s.answers[t] == if Matches(s.calls[u], s.calls[t]) then Replayed(s.answers[u].response, at) else Conflicted(at)
  {
    RunKeepsInv(run);
    var s := After(run);
    assert ToldRight(s.calls, s.answers, t, s.answers[t]);
    hide Apart, Kept, Authored, RunningLate, AllToldRight, Keyed, Paced;
    if Executed(s.answers[t]) {
      ExecutionsAreApart(s.calls, s.answers, t, u);
      assert false;
    }
  }

  lemma ExecutionsAreApart(calls: map<CallId, Input>, answers: map<CallId, Answer>, t: CallId, u: CallId)
    requires Apart(calls, answers) && t in answers && u in answers && t != u && SameKey(calls, t, u)
    requires Executed(answers[t]) && Executed(answers[u])
    ensures Late(answers[u], answers[t].start) || Late(answers[t], answers[u].start)
  {
  }

  /** Nor is an execution still running inside the hour of a stored response. */
  lemma RunningExecutionsAreLate(run: seq<Step>, u: CallId, t: CallId)
    requires var s := After(run); HasCreated(s, u) && F.IsRunning(s.flight, t) && SameKey(s.calls, t, u)
    ensures t in After(run).started && Late(After(run).answers[u], After(run).started[t])
  {
    RunKeepsInv(run);
  }

  /** A replayed response was created by a call with the same owner, operation and
      key, within the hour, even if two joined keys collide. */
  lemma ReplaysStayWithTheirOwner(run: seq<Step>, t: CallId)
    requires t in After(run).answers && After(run).answers[t].Replayed?
    ensures var s := After(run);
            exists u :: HasCreated(s, u) && t in s.calls && Matches(s.calls[u], s.calls[t])
                        && s.calls[u].owner == s.calls[t].owner && s.calls[u].operation == s.calls[t].operation
                        && s.calls[u].key == s.calls[t].key
                        && s.answers[u].response == s.answers[t].response && Within(s.answers[u], s.answers[t].at)
  {
    RunKeepsInv(run);
    var s := After(run);
    assert ToldRight(s.calls, s.answers, t, s.answers[t]);
    var u :| u in s.answers && SameKey(s.calls, t, u) && Within(s.answers[u], s.answers[t].at) && Matches(s.calls[u], s.calls[t]);
    assert HasCreated(s, u);
  }

  lemma AfterStep(run: seq<Step>, step: Step)
    ensures After(run + [step]) == Apply(After(run), step)
  {
    assert (run + [step])[..|run + [step]| - 1] == run;
  }

  // ------------------------------------------------- what each step is told

  ghost predicate Ended(f: F.Flight<string>, answers: map<CallId, Answer>) {
    && (forall t :: t in answers ==> t in f.phases)
    && (forall t :: t in f.phases ==> (f.phases[t].Finished? <==> t in answers))
  }

  /** What one step does to the phases and the answers. */
  ghost predicate OneCall(s: State, s': State, t: CallId) {
    && s'.calls == s.calls && t in s.flight.phases && t in s'.flight.phases && !s.flight.phases[t].Finished?
    && s'.flight.phases == s.flight.phases[t := s'.flight.phases[t]]
    && if s'.flight.phases[t].Finished? then t in s'.answers && s'.answers == s.answers[t := s'.answers[t]] else s'.answers == s.answers
  }

  lemma LookIsOneCall(s: State, t: CallId)
    requires F.IsReady(s.flight, t) && t in s.calls && s.flight.keys[t] == StoreKey(s.calls[t])
    ensures OneCall(s, ApplyLook(s, t), t)
  {
    hide Swept, StoreKey, Matches;
  }

  lemma ReturnIs(s: State, t: CallId, outcome: Result<Response>)
    requires F.IsRunning(s.flight, t) && t in s.calls && t in s.started
    ensures var s' := ApplyReturn(s, t, outcome);
            && OneCall(s, s', t) && t in s'.answers
            && (outcome.Ok? ==> s'.answers[t] == Created(Dated(outcome.value, s.now), s.started[t], s.ticks))
            && (outcome.Err? ==> s'.answers[t] == Failed(s.started[t], s.ticks) && s'.table == s.table)
  {
    hide StoreKey, Dated;
  }

  lemma OneCallKeepsEnded(s: State, s': State, t: CallId)
    requires Ended(s.flight, s.answers) && OneCall(s, s', t)
    ensures Ended(s'.flight, s'.answers) && AnswersGrow(s, s')
  {
  }

  /** No answer is taken back and no call forgotten. */
  ghost predicate AnswersGrow(s: State, s': State) {
    && (forall t :: t in s.answers ==> t in s'.answers && s'.answers[t] == s.answers[t])
    && (forall t :: t in s.calls ==> t in s'.calls && s'.calls[t] == s.calls[t])
  }

  lemma ArrivalKeepsEnded(s: State, t: CallId, input: Input)
    requires Ended(s.flight, s.answers) && t !in s.flight.phases && t !in s.calls
    ensures var s' := s.(calls := s.calls[t := input], flight := F.Arrive(s.flight, t, StoreKey(input)));
            Ended(s'.flight, s'.answers) && AnswersGrow(s, s')
  {
    hide StoreKey;
  }

  lemma ActKeepsEnded(s: State, step: Step)
    requires Ended(s.flight, s.answers)
    ensures Ended(Act(s, step).flight, Act(s, step).answers) && AnswersGrow(s, Act(s, step))
  {
    var s' := Act(s, step);
    if s' == s {
      assert AnswersGrow(s, s);
    } else {
      hide Ended, AnswersGrow, ApplyLook, ApplyReturn, StoreKey, ValidInput, F.Arrive;
      match step
      case Look(t) => LookIsOneCall(s, t); OneCallKeepsEnded(s, s', t);
      case Return(t, outcome) => ReturnIs(s, t, outcome); OneCallKeepsEnded(s, s', t);
      case Invoke(t, input) => ArrivalKeepsEnded(s, t, input);
      case Wake(t) => OneCallKeepsEnded(s, s', t);
      case Cancel(t) => OneCallKeepsEnded(s, s', t);
      case Tick(_) => hide *; TimeKeepsEnded(s, s');
    }
  }

  lemma TimeKeepsEnded(s: State, s': State)
    requires Ended(s.flight, s.answers) && s' == s.(now := s'.now)
    ensures Ended(s'.flight, s'.answers) && AnswersGrow(s, s')
  {
  }

  lemma RunningHasStarted(s: State)
    requires Inv(s)
    ensures s.flight.phases.Keys == s.flight.keys.Keys == s.calls.Keys
    ensures forall t :: t in s.calls ==> s.flight.keys[t] == StoreKey(s.calls[t])
    ensures forall t :: F.IsRunning(s.flight, t) ==> t in s.started && t !in s.answers
  {
    hide Free, Past, Kept, Authored, RunningLate, Apart, AllToldRight, StoreKey;
  }

  /** A call has ended exactly if it was answered; so nobody is dropped, and once every
      call has ended every call has its answer. */
  lemma {:induction false} EndedMeansAnswered(run: seq<Step>)
    ensures Ended(After(run).flight, After(run).answers)
  {
    if run != [] {
      hide Ended, Apply, Act;
      var n := |run| - 1;
      EndedMeansAnswered(run[..n]);
      ActKeepsEnded(After(run[..n]), run[n]);
      ApplyIs(After(run[..n]), run[n]);
    }
  }

  /** No answer is ever taken back. */
  lemma {:induction false} AnswersStay(run: seq<Step>, more: seq<Step>, t: CallId)
    requires t in After(run).answers && t in After(run).calls
    ensures var s, s' := After(run), After(run + more);
            t in s'.answers && s'.answers[t] == s.answers[t] && t in s'.calls && s'.calls[t] == s.calls[t]
  {
    if more == [] {
      assert run + more == run;
    } else {
      hide Ended, Apply, Act;
      var n := |more| - 1;
      AnswersStay(run, more[..n], t);
      assert run + more == (run + more[..n]) + [more[n]];
      AfterStep(run + more[..n], more[n]);
      EndedMeansAnswered(run + more[..n]);
      ActKeepsEnded(After(run + more[..n]), more[n]);
      ApplyIs(After(run + more[..n]), more[n]);
    }
  }

  lemma ApplyIs(s: State, step: Step)
    ensures Apply(s, step) == Act(s, step).(ticks := s.ticks + 1)
  {
  }

  lemma {:induction false} TicksCountSteps(run: seq<Step>)
    ensures After(run).ticks == |run|
  {
    if run != [] {
      TicksCountSteps(run[..|run| - 1]);
    }
  }

  /** A new call gets ready to look, exactly if no part of its input is missing. */
  lemma ArrivalsAreReady(run: seq<Step>, t: CallId, input: Input)
    requires t !in After(run).calls
    ensures var s := After(run + [Invoke(t, input)]);
            if input.owner != "" && input.key != "" && input.operation != "" && input.requestHash != ""
            then F.IsReady(s.flight, t) && t in s.calls && s.calls[t] == input
            else t !in s.calls && s.table == After(run).table && s.flight == After(run).flight
  {
    RunKeepsInv(run);
    RunningHasStarted(After(run));
    AfterStep(run, Invoke(t, input));
    hide Inv, StoreKey;
  }

  /** A call that is not executing may give up at any time; that stores nothing. */
  lemma CancellationsEnd(run: seq<Step>, t: CallId)
    requires F.IsReady(After(run).flight, t) || F.IsParked(After(run).flight, t)
    ensures var s := After(run + [Cancel(t)]); t in s.answers && s.answers[t] == Cancelled && s.table == After(run).table
  {
    AfterStep(run, Cancel(t));
    hide After, ApplyLook, ApplyReturn, ValidInput, StoreKey;
  }

  ghost predicate IsExecuting(s: State, u: CallId, key: string) {
    F.IsRunning(s.flight, u) && u in s.calls && StoreKey(s.calls[u]) == key
  }

  /** Call `u` stored a response that `t` finds if it looks now. */
  ghost predicate Offers(s: State, u: CallId, t: CallId, at: Moment) {
    HasCreated(s, u) && SameKey(s.calls, t, u) && Within(s.answers[u], at)
  }

  /** Whoever offers a response decides the answer. */
  ghost predicate FindsRightly(s: State, s': State, t: CallId, at: Moment)
    requires t in s.calls
  {
    forall u :: Offers(s, u, t, at) ==>
      t in s'.answers && s'.answers[t] == if Matches(s.calls[u], s.calls[t]) then Replayed(s.answers[u].response, at) else Conflicted(at)
  }

  /** With no response on offer the call waits for the one that executes, or executes. */
  ghost predicate OpensRightly(s: State, s': State, t: CallId, at: Moment)
    requires t in s.calls
  {
    if u :| IsExecuting(s, u, StoreKey(s.calls[t])) then F.IsParked(s'.flight, t) && IsExecuting(s, s'.flight.phases[t].channel, StoreKey(s.calls[t]))
    else F.IsRunning(s'.flight, t) && t in s'.started && s'.started[t] == at
  }

  ghost predicate LooksRightly(s: State, s': State, t: CallId, at: Moment) {
    && t in s.calls
    && FindsRightly(s, s', t, at)
    && ((forall u :: !Offers(s, u, t, at)) ==> OpensRightly(s, s', t, at))
  }

  /** What a look under the lock comes to: if a response of the key is within its hour,
      its replay or a conflict; otherwise a wait for the call that is executing, or, if
      there is none, an execution that starts now. */
  lemma LooksDecide(run: seq<Step>, t: CallId)
    requires F.IsReady(After(run).flight, t)
    ensures LooksRightly(After(run), After(run + [Look(t)]), t, Moment(|run|, After(run).now))
  {
    RunKeepsInv(run);
    TicksCountSteps(run);
    AfterStep(run, Look(t));
    hide Inv, After, Apply, LooksRightly;
    LookDecides(After(run), t);
  }

  lemma LookDecides(s: State, t: CallId)
    requires Inv(s) && F.IsReady(s.flight, t)
    ensures LooksRightly(s, Apply(s, Look(t)), t, Moment(s.ticks, s.now))
  {
    RunningHasStarted(s);
    hide Inv, Apply, StoreKey, Matches, Offers, IsExecuting, FindsRightly, OpensRightly;
    LookIs(s, t);
    TableOffers(s, t);
    var s', key, at := Apply(s, Look(t)), StoreKey(s.calls[t]), Moment(s.ticks, s.now);
    FoundIsAnswered(s, s', t, at);
    if key !in Swept(s.table, s.now) {
      ExecutorsArePending(s, key);
      OpenIsExecuted(s, s', t, key, at);
    }
  }

  lemma FoundIsAnswered(s: State, s': State, t: CallId, at: Moment)
    requires t in s.calls
    requires var key, swept := StoreKey(s.calls[t]), Swept(s.table, s.now);
             && (forall u :: Offers(s, u, t, at) ==> key in swept && swept[key] == Record(s.calls[u], s.answers[u].response))
             && (key in swept ==>
                   s'.answers == s.answers[t := if Matches(swept[key].input, s.calls[t]) then Replayed(swept[key].response, at) else Conflicted(at)])
    ensures FindsRightly(s, s', t, at)
  {
    hide StoreKey, Matches, Swept;
  }

  lemma OpenIsExecuted(s: State, s': State, t: CallId, key: string, at: Moment)
    requires F.IsReady(s.flight, t) && t in s.calls && key == StoreKey(s.calls[t]) && s'.flight.keys == s.flight.keys
    requires forall u :: IsExecuting(s, u, key) <==> key in s.flight.pending && s.flight.pending[key] == u
    requires key in s.flight.pending ==> s'.flight.phases == s.flight.phases[t := F.Parked(s.flight.pending[key])]
    requires key !in s.flight.pending ==> s'.flight.phases == s.flight.phases[t := F.Running] && s'.started == s.started[t := at]
    ensures OpensRightly(s, s', t, at)
  {
    hide StoreKey, IsExecuting;
  }

  lemma LookIs(s: State, t: CallId)
    requires F.IsReady(s.flight, t) && t in s.calls && s.flight.keys[t] == StoreKey(s.calls[t])
    ensures var s', key, swept, at := Apply(s, Look(t)), StoreKey(s.calls[t]), Swept(s.table, s.now), Moment(s.ticks, s.now);
            && s'.flight.keys == s.flight.keys
            && (key in swept ==>
                  s'.answers == s.answers[t := if Matches(swept[key].input, s.calls[t]) then Replayed(swept[key].response, at) else Conflicted(at)])
            && (key !in swept && key in s.flight.pending ==> s'.flight.phases == s.flight.phases[t := F.Parked(s.flight.pending[key])])
            && (key !in swept && key !in s.flight.pending ==>
                  s'.flight.phases == s.flight.phases[t := F.Running] && s'.started == s.started[t := at])
  {
    hide Swept, Matches, StoreKey;
  }

  /** The swept table holds exactly the responses within their hour. */
  lemma TableOffers(s: State, t: CallId)
    requires Inv(s) && t in s.calls
    ensures var key, swept, at := StoreKey(s.calls[t]), Swept(s.table, s.now), Moment(s.ticks, s.now);
            && (forall u :: Offers(s, u, t, at) ==> key in swept && swept[key] == Record(s.calls[u], s.answers[u].response))
            && (key in swept ==> exists u :: Offers(s, u, t, at))
  {
    var key, swept, at := StoreKey(s.calls[t]), Swept(s.table, s.now), Moment(s.ticks, s.now);
    hide Keyed, Paced, Free, RunningLate, Apart, AllToldRight, StoreKey, Matches;
    if key in swept {
      var u :| Wrote(s.calls, s.answers, u, s.table[key]);
      assert Offers(s, u, t, at);
    }
  }

  lemma ExecutorsArePending(s: State, key: string)
    requires Inv(s)
    ensures forall u :: IsExecuting(s, u, key) <==> key in s.flight.pending && s.flight.pending[key] == u
  {
    hide Paced, Free, Past, Kept, Authored, RunningLate, Apart, AllToldRight, StoreKey;
  }

  /** The answer of the call that executed: its own response, dated by the clock of its
      return if its producer left it undated. */
  lemma ReturnsAnswer(run: seq<Step>, t: CallId, outcome: Result<Response>)
    requires F.IsRunning(After(run).flight, t)
    ensures ReturnsRightly(After(run), After(run + [Return(t, outcome)]), t, outcome, |run|)
  {
    RunKeepsInv(run);
    TicksCountSteps(run);
    AfterStep(run, Return(t, outcome));
    hide Inv, After, Apply, ReturnsRightly;
    ReturnReturns(After(run), t, outcome);
  }

  lemma ReturnReturns(s: State, t: CallId, outcome: Result<Response>)
    requires Inv(s) && F.IsRunning(s.flight, t)
    ensures ReturnsRightly(s, Apply(s, Return(t, outcome)), t, outcome, s.ticks)
  {
    RunningHasStarted(s);
    ReturnIs(s, t, outcome);
    ReturnActs(s, t, outcome);
    hide Inv, ApplyReturn, Apply, Act;
  }

  ghost predicate ReturnsRightly(s: State, s': State, t: CallId, outcome: Result<Response>, tick: nat) {
    && t in s.calls && t in s.started && t in s'.answers && s'.calls == s.calls
    && (outcome.Ok? ==> s'.answers[t] == Created(StampedAt(outcome.value, s.now), s.started[t], tick))
    && (outcome.Err? ==> s'.answers[t] == Failed(s.started[t], tick) && s'.table == s.table)
  }

  lemma ReturnActs(s: State, t: CallId, outcome: Result<Response>)
    requires F.IsRunning(s.flight, t) && t in s.calls && t in s.started
    ensures Apply(s, Return(t, outcome)) == ApplyReturn(s, t, outcome).(ticks := s.ticks + 1)
  {
    hide ApplyReturn;
  }

  /** A response with its date, in terms of the clock at which its execution returned. */
  function StampedAt(response: Response, clock: Time): Response {
    response.(createdAt := if response.createdAt == ZERO_TIME then clock else response.createdAt)
  }

  /** For an hour from the date of a response every call on its key that looks is
      answered with it, or with a conflict, whatever happens in between.  An undated
      response has its hour from the clock of its return on. */
  lemma ReturnsAreReplayedForAnHour(run: seq<Step>, t: CallId, response: Response, more: seq<Step>, u: CallId)
    requires F.IsRunning(After(run).flight, t)
    requires var s := After(run + [Return(t, Ok(response))] + more);
             && F.IsReady(s.flight, u) && SameKey(s.calls, t, u)
             && s.now < (if response.createdAt == ZERO_TIME then After(run).now else response.createdAt) + HOUR
    ensures var before := run + [Return(t, Ok(response))] + more;
            var s, s', stored := After(before), After(before + [Look(u)]), StampedAt(response, After(run).now);
            && u in s'.answers
            && s'.answers[u] == if Matches(s.calls[t], s.calls[u]) then Replayed(stored, Moment(|before|, s.now)) else Conflicted(Moment(|before|, s.now))
  {
    var returned := run + [Return(t, Ok(response))];
    var before := returned + more;
    ReturnsAnswer(run, t, Ok(response));
    AnswersStay(returned, more, t);
    LooksDecide(before, u);
    hide After, Matches, StoreKey;
    assert Offers(After(before), t, u, Moment(|before|, After(before).now));
  }

  /** A conflict is about the call's own key: a response under the same joined key was
      within its hour, and its input does not match. */
  lemma ConflictsHaveAReason(run: seq<Step>, t: CallId)
    requires t in After(run).answers && After(run).answers[t].Conflicted?
    ensures var s := After(run);
            exists u :: HasCreated(s, u) && t in s.calls && s.calls[u].owner + NUL + s.calls[u].key == s.calls[t].owner + NUL + s.calls[t].key
                        && !Matches(s.calls[u], s.calls[t]) && Within(s.answers[u], s.answers[t].at)
  {
    RunKeepsInv(run);
    var s := After(run);
    assert ToldRight(s.calls, s.answers, t, s.answers[t]);
    var u :| u in s.answers && SameKey(s.calls, t, u) && Within(s.answers[u], s.answers[t].at);
    assert HasCreated(s, u);
  }

  lemma MovesAreFlightSteps(s: State, step: Step)
    requires !step.Invoke? && Apply(s, step).flight != s.flight
    ensures !step.Tick? && F.Step(s.flight, Apply(s, step).flight, step.call)
  {
  }

  /** Without new arrivals every step that moves a call spends budget, so each
      call is answered after boundedly many steps once executions return. */
  lemma StepsSpendBudget(run: seq<Step>, step: Step)
    requires !step.Invoke?
    ensures var f, g := After(run).flight, After(run + [step]).flight;
            g == f || (F.Moves(f, g) && F.Budget(g) < F.Budget(f))
  {
    RunKeepsInv(run);
    AfterStep(run, step);
    var f, g := After(run).flight, After(run + [step]).flight;
    if g != f {
      MovesAreFlightSteps(After(run), step);
      F.StepSpends(f, g, step.call);
    }
  }
}
