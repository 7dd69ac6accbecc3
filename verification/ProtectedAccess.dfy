/** Grant, Revoke and protected-resource access as one protocol.

Three stores are involved: enrollments, credentials and consumed assertions.  Each
lock-held region is one step and calls interleave freely.  The enrollments are
changed at any time by other commands, so the step ChangeEnrollments replaces them
altogether.  Each Grant Type has a credential store; they may share one.

A trace lists the states of a run; a moment is an index into it.  */
module ProtectedAccess {
  import opened Prelude
  import E = Enrollment
  import R = ServiceReplay
  import C = Credentials
  import CR = CredentialRuns
  import A = AuthorizationSelection

  type CallId = nat
  type Moment = nat
  type StoreName = nat
  type CredentialKey = (StoreName, string)

  const JWT := "aep-jwt"

  /** `handlers` lists the Grant Types in sorted order; `scheme` is authorizationMethod. */
  datatype Config = Config(
    lib: C.Library,
    grammar: A.Grammar,
    scheme: string -> string,
    advertisesHeader: C.Issued -> bool,
    enrollment: E.Config,
    methods: seq<string>,
    handlers: seq<C.GrantType>,
    storeOf: C.GrantType -> StoreName,
    replay: R.Config)

  datatype RevokeRequest = AllTypes | OfType(grantType: C.GrantType) | OneCredential(grantType: C.GrantType, id: string)

  /** How a protected access found out who is calling. */
  datatype Proof =
    | Session(grantType: C.GrantType, id: string, input: C.Input, lookedAt: Moment)
    | Assertion(index: nat)

  datatype Job =
    | Issuing(agentDID: string, grantType: C.GrantType, checkedAt: Moment)
    | Revoking(agentDID: string, request: RevokeRequest, todo: seq<C.GrantType>, at: Time, startedAt: Moment)
    | Trying(input: C.Input, index: nat, authorization: string, presented: bool, advertised: bool)
    | Confirming(agentDID: string, proof: Proof)

  datatype Reason = NotRecognized | UnsupportedMethod | AuthenticationRequired | Refused

  datatype Answer =
    | Granted(id: string)
    | Revoked(agentDID: string, request: RevokeRequest, startedAt: Moment)
    | Authenticated(agentDID: string, proof: Proof, confirmedAt: Moment)
    | Denied(reason: Reason)
    | Failed

  /** Which Grant call stored a credential. */
  datatype Origin = Origin(call: CallId, agentDID: string, grantType: C.GrantType, checkedAt: Moment, savedAt: Moment)

  datatype State = State(
    moment: Moment,
    enrollments: map<string, E.Record>,
    tables: map<StoreName, C.Table>,
    attempts: seq<R.Attempt>,
    jobs: map<CallId, Job>,
    answers: map<CallId, Answer>,
    origins: map<CredentialKey, Origin>)

  datatype Step =
    | ChangeEnrollments(enrollments: map<string, E.Record>)
    | OtherCommand(attempt: R.Attempt)                       // another command checks its assertion
    | CheckGrant(call: CallId, agentDID: string, grantType: C.GrantType)
    | Issue(call: CallId, credential: Option<C.Issued>, now: Time)
    | CheckRevoke(call: CallId, agentDID: string, request: RevokeRequest, at: Time)
    | RevokeNext(call: CallId)
    | Present(call: CallId, headers: A.Headers, now: Time, attempt: R.Attempt)
    | Try(call: CallId, detected: bool)
    | Conclude(call: CallId)
    | Confirm(call: CallId)

  const START := State(0, map[], map[], [], map[], map[], map[])

  function TableOf(tables: map<StoreName, C.Table>, name: StoreName): C.Table {
    if name in tables then tables[name] else map[]
  }

  predicate Fresh(s: State, t: CallId) {
    t !in s.jobs && t !in s.answers
  }

  predicate Busy(s: State, t: CallId) {
    t in s.jobs && t !in s.answers
  }

  function Answering(s: State, t: CallId, answer: Answer): State {
    s.(answers := s.answers[t := answer])
  }

  function Working(s: State, t: CallId, job: Job): State {
    s.(jobs := s.jobs[t := job])
  }

  /** At most call `t` is answered, and the answer claims nothing about other calls. */
  ghost predicate Modest(s: State, s': State, t: CallId) {
    s'.answers == s.answers ||
    (t in s'.answers && s'.answers == s.answers[t := s'.answers[t]] && !s'.answers[t].Revoked? && !s'.answers[t].Authenticated?)
  }

  // ----------------------------------------------------------------- Grant

  /** The check that Grant makes before it calls the handler. */
  predicate Eligible(config: E.Config, r: E.Record) {
    r.status.Active? && E.MissingClaims(config, r.claims) == [] && E.MissingIDs(config.documents, r) == []
  }

  function ApplyCheckGrant(config: Config, s: State, t: CallId, agentDID: string, g: C.GrantType): (s': State)
    ensures s'.tables == s.tables && s'.origins == s.origins && s.attempts <= s'.attempts && s'.enrollments == s.enrollments
    ensures Modest(s, s', t)
  {
    if agentDID !in s.enrollments || g !in config.handlers || !Eligible(config.enrollment, s.enrollments[agentDID])
    then Answering(s, t, Denied(Refused))
    else Working(s, t, Issuing(agentDID, g, s.moment))
  }

  /** The handler's record for what the issuer returned, if it is acceptable. */
  function IssuedRecord(config: Config, agentDID: string, g: C.GrantType, credential: C.Issued, now: Time): Option<C.Record> {
    var expiry := config.lib.parseTime(credential.expiresAt);
    if C.GrantTypeOf(credential) != g || !config.lib.isValid(credential) || !config.advertisesHeader(credential) then None
    else if agentDID == "" || now == ZERO_TIME || expiry.None? || !(expiry.value > now) then None
    else Some(C.Record(agentDID, now, credential, credential.credentialID, expiry.value, g))
  }

  ghost function ApplyIssue(config: Config, s: State, t: CallId, credential: Option<C.Issued>, now: Time): (s': State)
    requires t in s.jobs && s.jobs[t].Issuing?
    ensures s'.attempts == s.attempts && s'.enrollments == s.enrollments && s'.jobs == s.jobs
    ensures Modest(s, s', t)
  {
    var job := s.jobs[t];
    var name := config.storeOf(job.grantType);
    var table := TableOf(s.tables, name);
    if credential.None? then Answering(s, t, Failed)
    else
      var r := IssuedRecord(config, job.agentDID, job.grantType, credential.value, now);
      if r.None? || !C.Accepts(config.lib, table, r.value) then Answering(s, t, Failed)
      else
        Answering(s, t, Granted(r.value.credentialID)).(
          tables := s.tables[name := C.Saved(config.lib, table, r.value)],
          origins := s.origins[(name, r.value.credentialID) := Origin(t, job.agentDID, job.grantType, job.checkedAt, s.moment)])
  }

  // ---------------------------------------------------------------- Revoke

  function ApplyCheckRevoke(config: Config, s: State, t: CallId, agentDID: string, request: RevokeRequest, at: Time): (s': State)
    ensures s'.tables == s.tables && s'.origins == s.origins && s.attempts <= s'.attempts && s'.enrollments == s.enrollments
    ensures Modest(s, s', t)
  {
    if agentDID !in s.enrollments || (!request.AllTypes? && request.grantType !in config.handlers) then Answering(s, t, Denied(Refused))
    else Working(s, t, Revoking(agentDID, request, if request.AllTypes? then config.handlers else [request.grantType], at, s.moment))
  }

  /** The handler of one Grant Type. */
  function RevokeIn(table: C.Table, agentDID: string, g: C.GrantType, request: RevokeRequest, at: Time): C.Table {
    if request.OneCredential? then C.RevokedOne(table, agentDID, g, request.id, at) else C.RevokedAll(table, agentDID, g, at)
  }

  function ApplyRevokeNext(config: Config, s: State, t: CallId): (s': State)
    requires t in s.jobs && s.jobs[t].Revoking?
    ensures s'.attempts == s.attempts && s'.enrollments == s.enrollments && s'.origins == s.origins
  {
    var job := s.jobs[t];
    if job.todo == [] then Answering(s, t, Revoked(job.agentDID, job.request, job.startedAt))
    else if job.at == ZERO_TIME then Answering(s, t, Failed)
    else
      var g := job.todo[0];
      var name := config.storeOf(g);
      Working(s, t, job.(todo := job.todo[1..])).(
        tables := s.tables[name := RevokeIn(TableOf(s.tables, name), job.agentDID, g, job.request, job.at)])
  }

  // ---------------------------------------------- protected-resource access

  /** The attempt behind an AEP presentation: the caller supplies what its verifier returns. */
  function Asserted(attempt: R.Attempt): R.Attempt {
    attempt.(presented := true, operation := AUTHENTICATE)
  }

  ghost function ApplyPresent(config: Config, s: State, t: CallId, headers: A.Headers, now: Time, attempt: R.Attempt): (s': State)
    ensures s'.tables == s.tables && s'.origins == s.origins && s.attempts <= s'.attempts && s'.enrollments == s.enrollments
    ensures Modest(s, s', t)
  {
    var selected := A.Select(config.grammar, headers);
    if selected.None? then Answering(s, t, Denied(NotRecognized))
    else
      var seen := A.Effective(headers, selected.value);
      var authorization := if selected.value != "" then selected.value else A.FirstValue(headers(C.AUTHORIZATION));
      var parsed := config.grammar.standard(authorization);
      if parsed.None? || !parsed.value.scheme.AEP? then
        Working(s, t, Trying(C.Input(seen, now), 0, authorization, config.scheme(authorization) != "", false))
      else if JWT !in config.methods then Answering(s, t, Denied(UnsupportedMethod))
      else
        var a := Asserted(attempt);
        var consumed := s.(attempts := s.attempts + [a]);
        if R.Recognizes(config.replay, R.After(config.replay, s.attempts), a)
        then Working(consumed, t, Confirming(a.verified.value.subject, Assertion(|s.attempts|)))
        else Answering(consumed, t, Denied(NotRecognized))
  }

  ghost function ApplyTry(config: Config, s: State, t: CallId, detected: bool): (s': State)
    requires t in s.jobs && s.jobs[t].Trying? && s.jobs[t].index < |config.methods|
    ensures s'.tables == s.tables && s'.origins == s.origins && s.attempts <= s'.attempts && s'.enrollments == s.enrollments
    ensures Modest(s, s', t)
  {
    var job := s.jobs[t];
    var g := config.methods[job.index];
    if g == JWT then Working(s, t, job.(index := job.index + 1))
    else
      var found := C.Authenticate(config.lib, TableOf(s.tables, config.storeOf(g)), g, job.input);
      if found.None? then
        Working(s, t, job.(index := job.index + 1, presented := job.presented || detected, advertised := job.advertised || detected))
      else if InvalidMatch(found.value, g, job.input.now) then Answering(s, t, Failed)
      else Working(s, t, Confirming(found.value.agentDID, Session(g, found.value.credentialID, job.input, s.moment)))
  }

  /** What the handler and the Service refuse in a store's match. */
  predicate InvalidMatch(r: C.Stored, g: C.GrantType, now: Time) {
    r.agentDID == "" || r.credentialID == "" || !(r.expiresAt > now) || r.grantType != g
  }

  function WhyDenied(config: Config, job: Job): Reason
    requires job.Trying?
  {
    var m := config.scheme(job.authorization);
    if m != "" && !job.advertised && m !in config.methods && config.grammar.standard(job.authorization).Some? then UnsupportedMethod
    else if job.presented then NotRecognized
    else AuthenticationRequired
  }

  function ApplyConfirm(s: State, t: CallId): (s': State)
    requires t in s.jobs && s.jobs[t].Confirming?
    ensures s'.tables == s.tables && s'.origins == s.origins && s.attempts <= s'.attempts && s'.enrollments == s.enrollments
  {
    var job := s.jobs[t];
    if job.agentDID !in s.enrollments || !s.enrollments[job.agentDID].status.Active? then Answering(s, t, Denied(NotRecognized))
    else Answering(s, t, Authenticated(job.agentDID, job.proof, s.moment))
  }

  // ------------------------------------------------------------------ runs

  ghost function Act(config: Config, s: State, step: Step): State {
    match step
    case ChangeEnrollments(enrollments) => s.(enrollments := enrollments)
    case OtherCommand(attempt) => s.(attempts := s.attempts + [attempt])
    case CheckGrant(t, agentDID, g) => if Fresh(s, t) then ApplyCheckGrant(config, s, t, agentDID, g) else s
    case Issue(t, credential, now) => if Busy(s, t) && s.jobs[t].Issuing? then ApplyIssue(config, s, t, credential, now) else s
    case CheckRevoke(t, agentDID, request, at) => if Fresh(s, t) then ApplyCheckRevoke(config, s, t, agentDID, request, at) else s
    case RevokeNext(t) => if Busy(s, t) && s.jobs[t].Revoking? then ApplyRevokeNext(config, s, t) else s
    case Present(t, headers, now, attempt) => if Fresh(s, t) then ApplyPresent(config, s, t, headers, now, attempt) else s
    case Try(t, detected) =>
      if Busy(s, t) && s.jobs[t].Trying? && s.jobs[t].index < |config.methods| then ApplyTry(config, s, t, detected) else s
    case Conclude(t) =>
      if Busy(s, t) && s.jobs[t].Trying? && s.jobs[t].index >= |config.methods| then Answering(s, t, Denied(WhyDenied(config, s.jobs[t]))) else s
    case Confirm(t) => if Busy(s, t) && s.jobs[t].Confirming? then ApplyConfirm(s, t) else s
  }

  ghost function Apply(config: Config, s: State, step: Step): State {
    Act(config, s, step).(moment := s.moment + 1)
  }

  ghost function Trace(config: Config, run: seq<Step>): (h: seq<State>)
    ensures |h| == |run| + 1
  {
    if run == [] then [START]
    else
      var h := Trace(config, run[..|run| - 1]);
      h + [Apply(config, h[|h| - 1], run[|run| - 1])]
  }

  // ------------------------------------------- 1. credentials are for ever

  ghost predicate TablesValid(tables: map<StoreName, C.Table>) {
    forall name :: name in tables ==> CR.Valid(tables[name])
  }

  ghost predicate TablesExtend(t: map<StoreName, C.Table>, u: map<StoreName, C.Table>) {
    forall name :: name in t ==> name in u && CR.Extends(t[name], u[name])
  }

  lemma TablesExtendReflexive(t: map<StoreName, C.Table>)
    ensures TablesExtend(t, t)
  {
  }

  lemma TablesExtendTransitive(t: map<StoreName, C.Table>, u: map<StoreName, C.Table>, v: map<StoreName, C.Table>)
    requires TablesExtend(t, u) && TablesExtend(u, v)
    ensures TablesExtend(t, v)
  {
    forall name | name in t ensures name in v && CR.Extends(t[name], v[name]) {
      CR.ExtendsTransitive(t[name], u[name], v[name]);
    }
  }

  /** One store operation. */
  lemma OperationKeepsTables(config: Config, tables: map<StoreName, C.Table>, name: StoreName, op: CR.Op)
    requires TablesValid(tables)
    ensures var u := tables[name := CR.Apply(config.lib, TableOf(tables, name), op)];
            TablesValid(u) && TablesExtend(tables, u)
  {
    assert CR.Valid(TableOf(tables, name));
    CR.ApplyKeepsValid(config.lib, TableOf(tables, name), op);
    hide CR.Valid, CR.Apply;
    assert forall n | n in tables && n != name :: CR.Extends(tables[n], tables[n]);
  }

  lemma IssueKeepsTables(config: Config, s: State, t: CallId, credential: Option<C.Issued>, now: Time)
    requires TablesValid(s.tables) && t in s.jobs && s.jobs[t].Issuing?
    ensures var s' := ApplyIssue(config, s, t, credential, now); TablesValid(s'.tables) && TablesExtend(s.tables, s'.tables)
  {
    TablesExtendReflexive(s.tables);
    hide TablesValid, TablesExtend, IssuedRecord, C.Saved, C.Accepts;
    var job := s.jobs[t];
    if credential.Some? {
      var r := IssuedRecord(config, job.agentDID, job.grantType, credential.value, now);
      if r.Some? {
        OperationKeepsTables(config, s.tables, config.storeOf(job.grantType), CR.Save(r.value));
      }
    }
  }

  lemma RevokeKeepsTables(config: Config, s: State, t: CallId)
    requires TablesValid(s.tables) && t in s.jobs && s.jobs[t].Revoking?
    ensures var s' := ApplyRevokeNext(config, s, t); TablesValid(s'.tables) && TablesExtend(s.tables, s'.tables)
  {
    TablesExtendReflexive(s.tables);
    hide TablesValid, TablesExtend, C.RevokedOne, C.RevokedAll;
    var job := s.jobs[t];
    if job.todo != [] {
      var g := job.todo[0];
      OperationKeepsTables(config, s.tables, config.storeOf(g),
        if job.request.OneCredential? then CR.RevokeOne(job.agentDID, g, job.request.id, job.at) else CR.RevokeAll(job.agentDID, g, job.at));
    }
  }

  /** Only Issue and RevokeNext touch credentials, and only Issue records an origin. */
  lemma QuietActs(config: Config, s: State, step: Step)
    ensures !step.Issue? && !step.RevokeNext? ==> Act(config, s, step).tables == s.tables
    ensures !step.Issue? ==> Act(config, s, step).origins == s.origins
    ensures s.attempts <= Act(config, s, step).attempts
  {
    hide ApplyCheckGrant, ApplyIssue, ApplyCheckRevoke, ApplyRevokeNext, ApplyPresent, ApplyTry, ApplyConfirm;
  }

  lemma ActKeepsTables(config: Config, s: State, step: Step)
    requires TablesValid(s.tables)
    ensures var s' := Act(config, s, step); TablesValid(s'.tables) && TablesExtend(s.tables, s'.tables)
  {
    TablesExtendReflexive(s.tables);
    QuietActs(config, s, step);
    hide TablesValid, TablesExtend, ApplyCheckGrant, ApplyIssue, ApplyCheckRevoke, ApplyRevokeNext, ApplyPresent, ApplyTry, ApplyConfirm;
    if step.Issue? && Busy(s, step.call) && s.jobs[step.call].Issuing? {
      IssueKeepsTables(config, s, step.call, step.credential, step.now);
    } else if step.RevokeNext? && Busy(s, step.call) && s.jobs[step.call].Revoking? {
      RevokeKeepsTables(config, s, step.call);
    }
  }

  // --------------------------------------------- 2. what the past vouches for

  /** A run and its trace. */
  datatype Past = Past(run: seq<Step>, h: seq<State>)

  ghost predicate Complete(config: Config, p: Past) {
    |p.h| == |p.run| + 1 && Now(p).moment == |p.run|
  }

  function Now(p: Past): State
    requires p.h != []
  {
    p.h[|p.h| - 1]
  }

  ghost function Next(config: Config, p: Past, step: Step): Past
    requires p.h != []
  {
    Past(p.run + [step], p.h + [Apply(config, Now(p), step)])
  }

  ghost predicate Grows(p: Past, q: Past) {
    && p.h != [] && p.run <= q.run && p.h <= q.h
    && Now(p).attempts <= Now(q).attempts
    && (forall key :: key in Now(p).origins ==> key in Now(q).origins && Now(q).origins[key] == Now(p).origins[key])
    && TablesExtend(Now(p).tables, Now(q).tables)
  }

  ghost predicate EligibleAt(config: Config, p: Past, k: Moment, agentDID: string) {
    && k < |p.h| && agentDID in p.h[k].enrollments
    && Eligible(config.enrollment, p.h[k].enrollments[agentDID])
  }

  /** Call `t` passed Grant's check at moment `k`. */
  ghost predicate Checked(config: Config, p: Past, t: CallId, agentDID: string, g: C.GrantType, k: Moment) {
    && k < |p.run| && p.run[k].CheckGrant? && p.run[k].call == t && p.run[k].agentDID == agentDID && p.run[k].grantType == g
    && g in config.handlers && EligibleAt(config, p, k, agentDID)
  }

  /** The credential appeared in its store by the Grant call that the origin names. */
  ghost predicate OriginHolds(config: Config, p: Past, key: CredentialKey, o: Origin) {
    && o.checkedAt < o.savedAt < |p.run| && o.savedAt + 1 < |p.h|
    && p.run[o.savedAt].Issue? && p.run[o.savedAt].call == o.call
    && Checked(config, p, o.call, o.agentDID, o.grantType, o.checkedAt)
    && config.storeOf(o.grantType) == key.0
    && key.1 !in TableOf(p.h[o.savedAt].tables, key.0) && key.1 in TableOf(p.h[o.savedAt + 1].tables, key.0)
  }

  /** Exactly the stored credentials have an origin, of the same agent and type. */
  ghost predicate Backed(tables: map<StoreName, C.Table>, origins: map<CredentialKey, Origin>) {
    && (forall name: StoreName, id :: id in TableOf(tables, name) ==> (name, id) in origins && IsFor(TableOf(tables, name)[id], origins[(name, id)]))
    && (forall key :: key in origins ==> key.1 in TableOf(tables, key.0))
  }

  predicate IsFor(r: C.Stored, o: Origin) {
    o.agentDID == r.agentDID && o.grantType == r.grantType
  }

  ghost predicate ProofHolds(config: Config, p: Past, agentDID: string, proof: Proof)
    requires p.h != []
  {
    match proof
    case Session(g, id, input, k) =>
      var key := (config.storeOf(g), id);
      && k < |p.run| && k < |p.h|
      && var table := TableOf(p.h[k].tables, key.0);
         && C.Answers(config.lib, table, g, input, id) && table[id].agentDID == agentDID
         && key in Now(p).origins && var o := Now(p).origins[key];
            o.agentDID == agentDID && o.grantType == g && o.savedAt < k
    case Assertion(i) =>
      var attempts := Now(p).attempts;
      && JWT in config.methods
      && i < |attempts| && R.Accepted(config.replay, attempts, i)
      && attempts[i].operation == AUTHENTICATE
      && attempts[i].verified.value.subject == agentDID
  }

  /** A credential that a Revoke request is about, in the state where the request began. */
  ghost predicate Covered(config: Config, s: State, agentDID: string, request: RevokeRequest, g: C.GrantType, id: string) {
    var table := TableOf(s.tables, config.storeOf(g));
    && g in config.handlers && id in table && table[id].agentDID == agentDID && table[id].grantType == g
    && (request.AllTypes? || (request.grantType == g && (request.OneCredential? ==> request.id == id)))
  }

  predicate IsRevoked(tables: map<StoreName, C.Table>, name: StoreName, id: string) {
    id in TableOf(tables, name) && TableOf(tables, name)[id].revokedAt != ZERO_TIME
  }

  ghost predicate RevokedExcept(config: Config, p: Past, agentDID: string, request: RevokeRequest, todo: seq<C.GrantType>, k: Moment)
    requires p.h != []
  {
    && k < |p.h|
    && forall g, id | Covered(config, p.h[k], agentDID, request, g, id) ::
         g !in todo ==> IsRevoked(Now(p).tables, config.storeOf(g), id)
  }

  /** The request is about credentials of this type. */
  predicate Concerns(config: Config, request: RevokeRequest, g: C.GrantType) {
    g in config.handlers && (!request.AllTypes? ==> request.grantType == g)
  }

  /** Call `t` asked at moment `k` to revoke, for an agent that was enrolled. */
  ghost predicate Asked(config: Config, p: Past, t: CallId, agentDID: string, request: RevokeRequest, todo: seq<C.GrantType>, at: Time, k: Moment) {
    && k < |p.run| && k < |p.h| && p.run[k] == CheckRevoke(t, agentDID, request, at) && agentDID in p.h[k].enrollments
    && forall g :: g in todo ==> Concerns(config, request, g)
  }

  ghost predicate JobHolds(config: Config, p: Past, t: CallId, job: Job)
    requires p.h != []
  {
    match job
    case Issuing(agentDID, g, k) => Checked(config, p, t, agentDID, g, k)
    case Revoking(agentDID, request, todo, at, k) => RevokedExcept(config, p, agentDID, request, todo, k) && Asked(config, p, t, agentDID, request, todo, at, k)
    case Trying(_, _, _, _, _) => true
    case Confirming(agentDID, proof) => ProofHolds(config, p, agentDID, proof)
  }

  ghost predicate AnswerHolds(config: Config, p: Past, answer: Answer)
    requires p.h != []
  {
    match answer
    case Revoked(agentDID, request, k) => RevokedExcept(config, p, agentDID, request, [], k)
    case Authenticated(agentDID, proof, k) =>
      && ProofHolds(config, p, agentDID, proof)
      && (proof.Session? ==> proof.lookedAt < k)
      && k < |p.h| && agentDID in p.h[k].enrollments && p.h[k].enrollments[agentDID].status.Active?
    case _ => true
  }

  ghost predicate OriginsHold(config: Config, p: Past, origins: map<CredentialKey, Origin>) {
    forall key :: key in origins ==> OriginHolds(config, p, key, origins[key])
  }

  ghost predicate JobsHold(config: Config, p: Past, jobs: map<CallId, Job>)
    requires p.h != []
  {
    forall t :: t in jobs ==> JobHolds(config, p, t, jobs[t])
  }

  ghost predicate AnswersHold(config: Config, p: Past, answers: map<CallId, Answer>)
    requires p.h != []
  {
    forall t :: t in answers ==> AnswerHolds(config, p, answers[t])
  }

  // -------------------------------- 3. what the past vouches for, it keeps

  lemma OriginsGrow(config: Config, p: Past, q: Past, origins: map<CredentialKey, Origin>)
    requires OriginsHold(config, p, origins) && Grows(p, q)
    ensures OriginsHold(config, q, origins)
  {
    hide Eligible, TablesExtend;
  }

  lemma AcceptedGrows(config: R.Config, a: seq<R.Attempt>, b: seq<R.Attempt>, i: nat)
    requires i < |a| && a <= b
    ensures R.Accepted(config, b, i) == R.Accepted(config, a, i)
  {
    assert b[..i] == a[..i];
  }

  lemma ProofGrows(config: Config, p: Past, q: Past, agentDID: string, proof: Proof)
    requires p.h != [] && ProofHolds(config, p, agentDID, proof) && Grows(p, q)
    ensures ProofHolds(config, q, agentDID, proof)
  {
    hide C.Answers, R.Recognizes, R.Accepted, TablesExtend;
    if proof.Assertion? {
      AcceptedGrows(config.replay, Now(p).attempts, Now(q).attempts, proof.index);
    }
  }

  lemma RevokedStays(t: map<StoreName, C.Table>, u: map<StoreName, C.Table>, name: StoreName, id: string)
    requires TablesExtend(t, u) && IsRevoked(t, name, id)
    ensures IsRevoked(u, name, id)
  {
  }

  lemma RevokedExceptGrows(config: Config, p: Past, q: Past, agentDID: string, request: RevokeRequest, todo: seq<C.GrantType>, k: Moment)
    requires p.h != [] && RevokedExcept(config, p, agentDID, request, todo, k) && Grows(p, q)
    ensures RevokedExcept(config, q, agentDID, request, todo, k)
  {
    hide TablesExtend, Covered, IsRevoked;
    forall g, id | Covered(config, q.h[k], agentDID, request, g, id) && g !in todo
      ensures IsRevoked(Now(q).tables, config.storeOf(g), id)
    {
      RevokedStays(Now(p).tables, Now(q).tables, config.storeOf(g), id);
    }
  }

  lemma JobGrows(config: Config, p: Past, q: Past, t: CallId, job: Job)
    requires p.h != [] && JobHolds(config, p, t, job) && Grows(p, q)
    ensures JobHolds(config, q, t, job)
  {
    hide RevokedExcept, ProofHolds, TablesExtend, Eligible, Concerns;
    match job
    case Revoking(agentDID, request, todo, _, k) => RevokedExceptGrows(config, p, q, agentDID, request, todo, k);
    case Confirming(agentDID, proof) => ProofGrows(config, p, q, agentDID, proof);
    case _ =>
  }

  lemma JobsGrow(config: Config, p: Past, q: Past, jobs: map<CallId, Job>)
    requires p.h != [] && JobsHold(config, p, jobs) && Grows(p, q)
    ensures JobsHold(config, q, jobs)
  {
    hide JobHolds, TablesExtend;
    forall t | t in jobs ensures JobHolds(config, q, t, jobs[t]) {
      JobGrows(config, p, q, t, jobs[t]);
    }
  }

  lemma AnswersGrow(config: Config, p: Past, q: Past, answers: map<CallId, Answer>)
    requires p.h != [] && AnswersHold(config, p, answers) && Grows(p, q)
    ensures AnswersHold(config, q, answers)
  {
    hide ProofHolds, RevokedExcept, TablesExtend;
    forall t | t in answers ensures AnswerHolds(config, q, answers[t]) {
      match answers[t]
      case Revoked(agentDID, request, k) => RevokedExceptGrows(config, p, q, agentDID, request, [], k);
      case Authenticated(agentDID, proof, k) => ProofGrows(config, p, q, agentDID, proof);
      case _ =>
    }
  }

  // ---------------------------------------------------- 4. every step keeps it

  /** No two calls hold the same assertion, and an authenticated answer is the
      confirmation of its call's own proof. */
  ghost predicate Distinct(jobs: map<CallId, Job>, answers: map<CallId, Answer>) {
    && (forall t, u | t in jobs && u in jobs && jobs[t].Confirming? && jobs[u].Confirming? ::
          jobs[t].proof.Assertion? && jobs[u].proof == jobs[t].proof ==> t == u)
    && (forall t :: t in answers && answers[t].Authenticated? ==>
          t in jobs && jobs[t] == Confirming(answers[t].agentDID, answers[t].proof))
  }

  ghost predicate Kept(p: Past)
    requires p.h != []
  {
    && TablesValid(Now(p).tables)
    && (forall k | 0 <= k < |p.h| :: TablesExtend(p.h[k].tables, Now(p).tables))
  }

  ghost predicate Inv(config: Config, p: Past) {
    && Complete(config, p)
    && Kept(p)
    && Backed(Now(p).tables, Now(p).origins)
    && OriginsHold(config, p, Now(p).origins)
    && JobsHold(config, p, Now(p).jobs)
    && AnswersHold(config, p, Now(p).answers)
    && Distinct(Now(p).jobs, Now(p).answers)
  }

  lemma NextKeeps(config: Config, p: Past, step: Step)
    requires p.h != [] && Kept(p)
    ensures Kept(Next(config, p, step)) && TablesExtend(Now(p).tables, Now(Next(config, p, step)).tables)
  {
    var q := Next(config, p, step);
    ActKeepsTables(config, Now(p), step);
    hide TablesExtend, TablesValid, Act;
    assert Now(q).tables == Act(config, Now(p), step).tables;
    TablesExtendReflexive(Now(q).tables);
    forall k | 0 <= k < |q.h| ensures TablesExtend(q.h[k].tables, Now(q).tables) {
      if k < |p.h| {
        assert q.h[k] == p.h[k];
        TablesExtendTransitive(p.h[k].tables, Now(p).tables, Now(q).tables);
      }
    }
  }

  /** What an Issue step does when it saves. */
  ghost predicate Saves(config: Config, s: State, step: Step, r: C.Record) {
    && step.Issue? && Busy(s, step.call) && s.jobs[step.call].Issuing? && step.credential.Some?
    && var job := s.jobs[step.call];
       && IssuedRecord(config, job.agentDID, job.grantType, step.credential.value, step.now) == Some(r)
       && C.Accepts(config.lib, TableOf(s.tables, config.storeOf(job.grantType)), r)
  }

  lemma IssueCases(config: Config, s: State, step: Step) returns (r: Option<C.Record>)
    requires step.Issue?
    ensures r.None? ==> Act(config, s, step).tables == s.tables && Act(config, s, step).origins == s.origins
    ensures r.Some? ==> Saves(config, s, step, r.value)
  {
    r := None;
    if Busy(s, step.call) && s.jobs[step.call].Issuing? && step.credential.Some? {
      var job := s.jobs[step.call];
      var candidate := IssuedRecord(config, job.agentDID, job.grantType, step.credential.value, step.now);
      if candidate.Some? && C.Accepts(config.lib, TableOf(s.tables, config.storeOf(job.grantType)), candidate.value) {
        r := candidate;
      }
    }
  }

  lemma StoredRecord(config: Config, agentDID: string, g: C.GrantType, credential: C.Issued, now: Time, r: C.Record, table: C.Table)
    requires IssuedRecord(config, agentDID, g, credential, now) == Some(r) && C.Accepts(config.lib, table, r)
    ensures r.credentialID !in table
    ensures var saved := C.Saved(config.lib, table, r);
            && saved == table[r.credentialID := saved[r.credentialID]]
            && saved[r.credentialID].agentDID == agentDID && saved[r.credentialID].grantType == g
  {
  }

  lemma SavingKeepsOrigins(config: Config, p: Past, step: Step, r: C.Record)
    requires Inv(config, p) && Saves(config, Now(p), step, r)
    requires Grows(p, Next(config, p, step))
    ensures var s' := Act(config, Now(p), step);
            Backed(s'.tables, s'.origins) && OriginsHold(config, Next(config, p, step), s'.origins)
  {
    var q := Next(config, p, step);
    var s, s' := Now(p), Act(config, Now(p), step);
    var t := step.call;
    var job := s.jobs[t];
    var name := config.storeOf(job.grantType);
    var table := TableOf(s.tables, name);
    var key := (name, r.credentialID);
    assert JobHolds(config, p, t, job);
    StoredRecord(config, job.agentDID, job.grantType, step.credential.value, step.now, r, table);
    OriginsGrow(config, p, q, s.origins);
    hide Eligible, IssuedRecord, C.Accepts, C.Saved, TablesExtend;
    var saved := C.Saved(config.lib, table, r);
    var o := Origin(t, job.agentDID, job.grantType, job.checkedAt, s.moment);
    assert s'.tables == s.tables[name := saved] && s'.origins == s.origins[key := o];
    SavedIsBacked(s.tables, s.origins, name, saved, r.credentialID, o);
    assert q.h[s.moment] == s && q.h[s.moment + 1].tables == s'.tables;
    assert q.run[s.moment] == step;
    assert OriginHolds(config, q, key, o);
  }

  lemma SavedIsBacked(tables: map<StoreName, C.Table>, origins: map<CredentialKey, Origin>, name: StoreName, saved: C.Table, id: string, o: Origin)
    requires Backed(tables, origins)
    requires id in saved && saved == TableOf(tables, name)[id := saved[id]] && IsFor(saved[id], o)
    ensures Backed(tables[name := saved], origins[(name, id) := o])
  {
    hide IsFor;
    var u, more := tables[name := saved], origins[(name, id) := o];
    assert TableOf(u, name) == saved;
    forall n, i | i in TableOf(u, n) ensures (n, i) in more && IsFor(TableOf(u, n)[i], more[(n, i)]) {
      if n != name {
        assert TableOf(u, n) == TableOf(tables, n);
      }
    }
    forall key | key in more ensures key.1 in TableOf(u, key.0) {
      if key.0 != name {
        assert TableOf(u, key.0) == TableOf(tables, key.0);
      }
    }
  }

  lemma RelabelledIsBacked(tables: map<StoreName, C.Table>, origins: map<CredentialKey, Origin>, name: StoreName, table: C.Table)
    requires Backed(tables, origins) && table.Keys == TableOf(tables, name).Keys
    requires forall id, o :: id in table && IsFor(TableOf(tables, name)[id], o) ==> IsFor(table[id], o)
    ensures Backed(tables[name := table], origins)
  {
    hide IsFor;
    var u := tables[name := table];
    assert TableOf(u, name) == table;
    forall n, i | i in TableOf(u, n) ensures (n, i) in origins && IsFor(TableOf(u, n)[i], origins[(n, i)]) {
      if n == name {
        assert i in TableOf(tables, name);
      } else {
        assert TableOf(u, n) == TableOf(tables, n);
      }
    }
    forall key | key in origins ensures key.1 in TableOf(u, key.0) {
      if key.0 != name {
        assert TableOf(u, key.0) == TableOf(tables, key.0);
      }
    }
  }

  /** Revoking leaves the owner and the type of every credential alone. */
  lemma RevokingKeepsLabels(table: C.Table, agentDID: string, g: C.GrantType, request: RevokeRequest, at: Time)
    ensures var u := RevokeIn(table, agentDID, g, request, at);
            u.Keys == table.Keys && forall id :: id in u ==> u[id].agentDID == table[id].agentDID && u[id].grantType == table[id].grantType
  {
  }

  lemma RevokingKeepsBacked(config: Config, s: State, t: CallId)
    requires Backed(s.tables, s.origins) && t in s.jobs && s.jobs[t].Revoking?
    ensures Backed(ApplyRevokeNext(config, s, t).tables, s.origins)
  {
    hide Backed, RevokeIn;
    var job := s.jobs[t];
    if job.todo != [] {
      var g := job.todo[0];
      var name := config.storeOf(g);
      RevokingKeepsLabels(TableOf(s.tables, name), job.agentDID, g, job.request, job.at);
      RelabelledIsBacked(s.tables, s.origins, name, RevokeIn(TableOf(s.tables, name), job.agentDID, g, job.request, job.at));
    }
  }

  lemma OriginsOnlyGrow(config: Config, s: State, step: Step)
    requires Backed(s.tables, s.origins)
    ensures var s' := Act(config, s, step);
            forall key :: key in s.origins ==> key in s'.origins && s'.origins[key] == s.origins[key]
  {
    QuietActs(config, s, step);
    if step.Issue? {
      var r := IssueCases(config, s, step);
      hide IssuedRecord, C.Saved, Act;
      if r.Some? {
        var name := config.storeOf(s.jobs[step.call].grantType);
        assert (name, r.value.credentialID) !in s.origins;
        SavingAddsOneOrigin(config, s, step, r.value);
      }
    }
  }

  lemma SavingAddsOneOrigin(config: Config, s: State, step: Step, r: C.Record)
    requires Saves(config, s, step, r)
    ensures var job := s.jobs[step.call];
            Act(config, s, step).origins ==
            s.origins[(config.storeOf(job.grantType), r.credentialID) := Origin(step.call, job.agentDID, job.grantType, job.checkedAt, s.moment)]
  {
    hide IssuedRecord, C.Accepts, C.Saved;
  }

  lemma NextGrows(config: Config, p: Past, step: Step)
    requires Inv(config, p)
    ensures var q := Next(config, p, step); Grows(p, q) && Complete(config, q)
  {
    hide Kept, Backed, OriginsHold, JobsHold, AnswersHold, Distinct, TablesExtend, Act;
    NextKeeps(config, p, step);
    QuietActs(config, Now(p), step);
    OriginsOnlyGrow(config, Now(p), step);
  }

  lemma NextBacks(config: Config, p: Past, step: Step)
    requires Inv(config, p) && Grows(p, Next(config, p, step))
    ensures var s' := Act(config, Now(p), step);
            Backed(s'.tables, s'.origins) && OriginsHold(config, Next(config, p, step), s'.origins)
  {
    var s := Now(p);
    QuietActs(config, s, step);
    OriginsGrow(config, p, Next(config, p, step), s.origins);
    hide Backed, OriginsHold, Next, Saves, Grows, Inv, ApplyIssue, ApplyRevokeNext;
    if step.Issue? {
      var r := IssueCases(config, s, step);
      if r.Some? { SavingKeepsOrigins(config, p, step, r.value); }
    } else if step.RevokeNext? && Busy(s, step.call) && s.jobs[step.call].Revoking? {
      InvBacked(config, p);
      RevokingKeepsBacked(config, s, step.call);
    } else {
      InvBacked(config, p);
    }
  }

  lemma InvBacked(config: Config, p: Past)
    requires Inv(config, p)
    ensures Backed(Now(p).tables, Now(p).origins)
  {
  }

  // ------------------------------------------------------ 5. jobs and answers

  lemma JobsHoldWith(config: Config, q: Past, jobs: map<CallId, Job>, t: CallId, job: Job)
    requires q.h != [] && JobsHold(config, q, jobs) && JobHolds(config, q, t, job)
    ensures JobsHold(config, q, jobs[t := job])
  {
    hide JobHolds;
  }

  lemma AnswersHoldWith(config: Config, q: Past, answers: map<CallId, Answer>, t: CallId, answer: Answer)
    requires q.h != [] && AnswersHold(config, q, answers) && AnswerHolds(config, q, answer)
    ensures AnswersHold(config, q, answers[t := answer])
  {
    hide AnswerHolds;
  }

  /** The parts of a complete past that the step lemmas look at. */
  lemma NextShape(config: Config, p: Past, step: Step)
    requires Complete(config, p)
    ensures var q := Next(config, p, step);
            && q.run[|p.run|] == step && |q.run| == |p.run| + 1
            && q.h[|p.run|] == Now(p) && |q.h| == |q.run| + 1
            && Now(q) == Act(config, Now(p), step).(moment := Now(p).moment + 1)
  {
    hide Act;
  }

  lemma CheckedNow(config: Config, p: Past, step: Step)
    requires Complete(config, p) && step.CheckGrant? && step.grantType in config.handlers
    requires step.agentDID in Now(p).enrollments && Eligible(config.enrollment, Now(p).enrollments[step.agentDID])
    ensures Checked(config, Next(config, p, step), step.call, step.agentDID, step.grantType, |p.run|)
  {
    NextShape(config, p, step);
    hide Eligible, Act;
  }

  lemma NothingRevokedYet(config: Config, p: Past, step: Step, agentDID: string, request: RevokeRequest, todo: seq<C.GrantType>)
    requires Complete(config, p)
    requires if request.AllTypes? then todo == config.handlers else todo == [request.grantType]
    ensures RevokedExcept(config, Next(config, p, step), agentDID, request, todo, |p.run|)
  {
    NextShape(config, p, step);
    hide Act, TablesExtend;
  }

  lemma RevokingWithdraws(table: C.Table, agentDID: string, g: C.GrantType, request: RevokeRequest, at: Time, id: string)
    requires id in table && table[id].agentDID == agentDID && table[id].grantType == g && at != ZERO_TIME
    requires request.OneCredential? ==> request.id == id
    ensures var u := RevokeIn(table, agentDID, g, request, at); id in u && u[id].revokedAt == at
  {
  }

  lemma ExtendsKeeps(t: map<StoreName, C.Table>, u: map<StoreName, C.Table>, name: StoreName, id: string)
    requires TablesExtend(t, u) && id in TableOf(t, name)
    ensures id in TableOf(u, name)
    ensures TableOf(u, name)[id].agentDID == TableOf(t, name)[id].agentDID && TableOf(u, name)[id].grantType == TableOf(t, name)[id].grantType
  {
  }

  /** One Grant Type of a Revoke is done. */
  lemma RevokedNext(config: Config, p: Past, q: Past, job: Job)
    requires p.h != [] && job.Revoking? && job.todo != [] && job.at != ZERO_TIME
    requires RevokedExcept(config, p, job.agentDID, job.request, job.todo, job.startedAt) && Grows(p, q) && Kept(p)
    requires var g := job.todo[0]; var name := config.storeOf(g);
             Now(q).tables == Now(p).tables[name := RevokeIn(TableOf(Now(p).tables, name), job.agentDID, g, job.request, job.at)]
    ensures RevokedExcept(config, q, job.agentDID, job.request, job.todo[1..], job.startedAt)
  {
    var k := job.startedAt;
    hide TablesExtend, TablesValid, RevokeIn;
    forall g, id | Covered(config, q.h[k], job.agentDID, job.request, g, id) && g !in job.todo[1..]
      ensures IsRevoked(Now(q).tables, config.storeOf(g), id)
    {
      assert p.h[k] == q.h[k];
      if g == job.todo[0] {
        ExtendsKeeps(p.h[k].tables, Now(p).tables, config.storeOf(g), id);
        RevokingWithdraws(TableOf(Now(p).tables, config.storeOf(g)), job.agentDID, g, job.request, job.at, id);
      } else {
        assert g !in job.todo;
        RevokedStays(Now(p).tables, Now(q).tables, config.storeOf(g), id);
      }
    }
  }

  lemma AssertionHolds(config: Config, p: Past, step: Step, a: R.Attempt)
    requires Complete(config, p) && Now(Next(config, p, step)).attempts == Now(p).attempts + [a]
    requires a.operation == AUTHENTICATE && R.Recognizes(config.replay, R.After(config.replay, Now(p).attempts), a)
    requires JWT in config.methods
    ensures ProofHolds(config, Next(config, p, step), a.verified.value.subject, Assertion(|Now(p).attempts|))
  {
    var attempts := Now(p).attempts;
    hide Next, R.After;
    assert (attempts + [a])[..|attempts|] == attempts;
  }

  lemma MatchHolds(config: Config, p: Past, step: Step, g: C.GrantType, input: C.Input)
    requires Inv(config, p) && Grows(p, Next(config, p, step))
    requires C.Authenticate(config.lib, TableOf(Now(p).tables, config.storeOf(g)), g, input).Some?
    ensures var found := C.Authenticate(config.lib, TableOf(Now(p).tables, config.storeOf(g)), g, input).value;
            && !InvalidMatch(found, g, input.now)
            && ProofHolds(config, Next(config, p, step), found.agentDID, Session(g, found.credentialID, input, |p.run|))
  {
    NextShape(config, p, step);
    var name := config.storeOf(g);
    var table := TableOf(Now(p).tables, name);
    var found := C.Authenticate(config.lib, table, g, input).value;
    var id :| C.Answers(config.lib, table, g, input, id) && table[id] == found;
    assert CR.Valid(table);
    hide JobsHold, AnswersHold, Distinct, TablesExtend, TablesValid, Act, C.Sole;
    assert found.credentialID == id;
    assert OriginHolds(config, p, (name, id), Now(p).origins[(name, id)]);
  }

  lemma NextJobs(config: Config, p: Past, step: Step)
    requires Inv(config, p) && Grows(p, Next(config, p, step)) && Complete(config, Next(config, p, step))
    ensures JobsHold(config, Next(config, p, step), Act(config, Now(p), step).jobs)
  {
    var q, s := Next(config, p, step), Now(p);
    JobsGrow(config, p, q, s.jobs);
    hide Grows, JobHolds, Inv, Next;
    match step
    case CheckGrant(t, agentDID, g) => NextJobsOfChecks(config, p, step);
    case CheckRevoke(t, agentDID, request, at) => NextJobsOfChecks(config, p, step);
    case RevokeNext(t) => NextJobsOfRevoking(config, p, step);
    case Present(t, headers, now, attempt) => NextJobsOfPresenting(config, p, step);
    case Try(t, detected) => NextJobsOfTrying(config, p, step);
    case Issue(t, credential, now) =>
    case _ => hide ApplyPresent, ApplyTry, ApplyRevokeNext, ApplyCheckGrant, ApplyCheckRevoke, ApplyIssue;
  }

  lemma NextJobsOfChecks(config: Config, p: Past, step: Step)
    requires Complete(config, p) && JobsHold(config, Next(config, p, step), Now(p).jobs)
    requires step.CheckGrant? || step.CheckRevoke?
    ensures JobsHold(config, Next(config, p, step), Act(config, Now(p), step).jobs)
  {
    var q, s := Next(config, p, step), Now(p);
    hide JobsHold, Checked, RevokedExcept, Asked, Eligible, Next;
    if step.CheckGrant? {
      var job := Issuing(step.agentDID, step.grantType, s.moment);
      if Act(config, s, step).jobs == s.jobs[step.call := job] && Act(config, s, step).jobs != s.jobs {
        CheckedNow(config, p, step);
        JobsHoldWith(config, q, s.jobs, step.call, job);
      }
    } else {
      var todo := if step.request.AllTypes? then config.handlers else [step.request.grantType];
      if step.agentDID in s.enrollments && (!step.request.AllTypes? ==> step.request.grantType in config.handlers) {
        NothingRevokedYet(config, p, step, step.agentDID, step.request, todo);
        AskedNow(config, p, step, todo);
        JobsHoldWith(config, q, s.jobs, step.call, Revoking(step.agentDID, step.request, todo, step.at, s.moment));
      }
    }
  }

  lemma AskedNow(config: Config, p: Past, step: Step, todo: seq<C.GrantType>)
    requires Complete(config, p) && step.CheckRevoke? && step.agentDID in Now(p).enrollments
    requires if step.request.AllTypes? then todo == config.handlers else todo == [step.request.grantType] && step.request.grantType in config.handlers
    ensures Asked(config, Next(config, p, step), step.call, step.agentDID, step.request, todo, step.at, |p.run|)
  {
    NextShape(config, p, step);
    hide Act, Next;
  }

  lemma AskedStill(config: Config, p: Past, q: Past, t: CallId, job: Job)
    requires job.Revoking? && job.todo != [] && p.run <= q.run && p.h <= q.h
    requires Asked(config, p, t, job.agentDID, job.request, job.todo, job.at, job.startedAt)
    ensures Asked(config, q, t, job.agentDID, job.request, job.todo[1..], job.at, job.startedAt)
    ensures Concerns(config, job.request, job.todo[0])
  {
    hide Concerns;
  }

  lemma NextJobsOfRevoking(config: Config, p: Past, step: Step)
    requires Inv(config, p) && Grows(p, Next(config, p, step)) && step.RevokeNext?
    requires JobsHold(config, Next(config, p, step), Now(p).jobs)
    ensures JobsHold(config, Next(config, p, step), Act(config, Now(p), step).jobs)
  {
    var q, s, t := Next(config, p, step), Now(p), step.call;
    NextShape(config, p, step);
    if Busy(s, t) && s.jobs[t].Revoking? && s.jobs[t].todo != [] && s.jobs[t].at != ZERO_TIME {
      var job := s.jobs[t];
      assert JobHolds(config, p, t, job);
      RevokedNext(config, p, q, job);
      AskedStill(config, p, q, t, job);
      hide *;
      JobsHoldWith(config, q, s.jobs, t, job.(todo := job.todo[1..]));
    }
  }

  /** Presenting answers the call, starts the credential loop, or consumes the assertion. */
  lemma PresentShape(config: Config, s: State, t: CallId, headers: A.Headers, now: Time, attempt: R.Attempt)
    ensures var s' := ApplyPresent(config, s, t, headers, now, attempt);
            var a := Asserted(attempt);
            var consumed := s.(attempts := s.attempts + [a]);
            || (exists reason :: s' == Answering(s, t, Denied(reason)))
            || (exists job: Job :: job.Trying? && s' == Working(s, t, job))
            || s' == Answering(consumed, t, Denied(NotRecognized))
            || (R.Recognizes(config.replay, R.After(config.replay, s.attempts), a) && JWT in config.methods
                && s' == Working(consumed, t, Confirming(a.verified.value.subject, Assertion(|s.attempts|))))
  {
    hide A.Select, A.Effective, R.Recognizes, R.After;
  }

  lemma PresentActs(config: Config, s: State, step: Step)
    requires step.Present?
    ensures Act(config, s, step) ==
            if Fresh(s, step.call) then ApplyPresent(config, s, step.call, step.headers, step.now, step.attempt) else s
  {
  }

  lemma NextJobsOfPresenting(config: Config, p: Past, step: Step)
    requires Complete(config, p) && step.Present?
    requires JobsHold(config, Next(config, p, step), Now(p).jobs)
    ensures JobsHold(config, Next(config, p, step), Act(config, Now(p), step).jobs)
  {
    NextShape(config, p, step);
    var q, s, t := Next(config, p, step), Now(p), step.call;
    PresentActs(config, s, step);
    hide JobsHold, ProofHolds, Next, ApplyPresent, Act, R.Recognizes, R.After;
    if Fresh(s, t) {
      PresentShape(config, s, t, step.headers, step.now, step.attempt);
      var s', a := ApplyPresent(config, s, t, step.headers, step.now, step.attempt), Asserted(step.attempt);
      if s'.jobs != s.jobs {
        if s'.jobs[t].Confirming? {
          AssertionHolds(config, p, step, a);
        }
        JobsHoldWith(config, q, s.jobs, t, s'.jobs[t]);
      }
    }
  }

  /** Trying a method leaves the jobs alone, moves on, or finds a match to confirm. */
  lemma TryShape(config: Config, s: State, t: CallId, detected: bool)
    requires t in s.jobs && s.jobs[t].Trying? && s.jobs[t].index < |config.methods|
    ensures var s' := ApplyTry(config, s, t, detected);
            var job := s.jobs[t];
            var g := config.methods[job.index];
            var found := C.Authenticate(config.lib, TableOf(s.tables, config.storeOf(g)), g, job.input);
            || s' == Answering(s, t, Failed)
            || (exists next: Job :: next.Trying? && s' == Working(s, t, next))
            || (found.Some? && s' == Working(s, t, Confirming(found.value.agentDID, Session(g, found.value.credentialID, job.input, s.moment))))
  {
    hide C.Authenticate, InvalidMatch;
  }

  lemma TriedJobHolds(config: Config, p: Past, step: Step, g: C.GrantType, input: C.Input, t: CallId, job: Job)
    requires Inv(config, p) && Grows(p, Next(config, p, step))
    requires var found := C.Authenticate(config.lib, TableOf(Now(p).tables, config.storeOf(g)), g, input);
             job.Trying? || (found.Some? && job == Confirming(found.value.agentDID, Session(g, found.value.credentialID, input, |p.run|)))
    ensures JobHolds(config, Next(config, p, step), t, job)
  {
    hide ProofHolds, Next, Grows, InvalidMatch, C.Authenticate, Inv;
    if job.Confirming? {
      MatchHolds(config, p, step, g, input);
    }
  }

  lemma NextJobsOfTrying(config: Config, p: Past, step: Step)
    requires Inv(config, p) && Grows(p, Next(config, p, step)) && step.Try?
    requires JobsHold(config, Next(config, p, step), Now(p).jobs)
    ensures JobsHold(config, Next(config, p, step), Act(config, Now(p), step).jobs)
  {
    MomentIs(config, p);
    NextShape(config, p, step);
    hide Inv, Grows, Next, JobsHold, JobHolds, ApplyTry, Act, C.Authenticate;
    var q, s, t := Next(config, p, step), Now(p), step.call;
    TryActs(config, s, step);
    if Busy(s, t) && s.jobs[t].Trying? && s.jobs[t].index < |config.methods| {
      TryShape(config, s, t, step.detected);
      var s' := ApplyTry(config, s, t, step.detected);
      var job := s.jobs[t];
      if s'.jobs != s.jobs {
        TriedJobHolds(config, p, step, config.methods[job.index], job.input, t, s'.jobs[t]);
        JobsHoldWith(config, q, s.jobs, t, s'.jobs[t]);
      }
    }
  }

  lemma TryActs(config: Config, s: State, step: Step)
    requires step.Try?
    ensures Act(config, s, step) ==
            if Busy(s, step.call) && s.jobs[step.call].Trying? && s.jobs[step.call].index < |config.methods|
            then ApplyTry(config, s, step.call, step.detected) else s
  {
  }

  lemma MomentIs(config: Config, p: Past)
    requires Inv(config, p)
    ensures Complete(config, p)
  {
  }

  // ----------------------------------------------------------- 6. answers

  lemma NextAnswers(config: Config, p: Past, step: Step)
    requires Inv(config, p) && Grows(p, Next(config, p, step)) && Complete(config, Next(config, p, step))
    ensures AnswersHold(config, Next(config, p, step), Act(config, Now(p), step).answers)
  {
    var q, s := Next(config, p, step), Now(p);
    AnswersGrow(config, p, q, s.answers);
    NextShape(config, p, step);
    if step.Confirm? && Busy(s, step.call) && s.jobs[step.call].Confirming? {
      ConfirmedHolds(config, p, step);
    } else if step.RevokeNext? && Busy(s, step.call) && s.jobs[step.call].Revoking? {
      var job := s.jobs[step.call];
      assert JobHolds(config, p, step.call, job);
      if job.todo == [] {
        RevokedExceptGrows(config, p, q, job.agentDID, job.request, job.todo, job.startedAt);
        AnswersHoldWith(config, q, s.answers, step.call, Revoked(job.agentDID, job.request, job.startedAt));
      } else {
        RevokeAnswers(config, s, step.call);
        AnswersHoldWith(config, q, s.answers, step.call, Failed);
      }
    } else {
      OtherAnswers(config, q, s, step);
    }
  }

  lemma RevokeAnswers(config: Config, s: State, t: CallId)
    requires t in s.jobs && s.jobs[t].Revoking? && s.jobs[t].todo != []
    ensures var s' := ApplyRevokeNext(config, s, t); s'.answers == s.answers || s'.answers == s.answers[t := Failed]
  {
  }

  lemma ConfirmingHolds(config: Config, p: Past, q: Past, t: CallId)
    requires Inv(config, p) && Grows(p, q) && t in Now(p).jobs && Now(p).jobs[t].Confirming?
    ensures var job := Now(p).jobs[t];
            ProofHolds(config, q, job.agentDID, job.proof) && (job.proof.Session? ==> job.proof.lookedAt < |p.run|)
  {
    var job := Now(p).jobs[t];
    assert JobHolds(config, p, t, job);
    ProofGrows(config, p, q, job.agentDID, job.proof);
    hide Kept, Backed, OriginsHold, JobsHold, AnswersHold, Distinct, Grows, C.Answers;
  }

  lemma ConfirmActs(config: Config, s: State, step: Step)
    requires step.Confirm? && Busy(s, step.call) && s.jobs[step.call].Confirming?
    ensures Act(config, s, step) == ApplyConfirm(s, step.call)
  {
  }

  lemma ConfirmedHolds(config: Config, p: Past, step: Step)
    requires Inv(config, p) && Grows(p, Next(config, p, step)) && step.Confirm?
    requires Busy(Now(p), step.call) && Now(p).jobs[step.call].Confirming?
    requires AnswersHold(config, Next(config, p, step), Now(p).answers)
    ensures AnswersHold(config, Next(config, p, step), Act(config, Now(p), step).answers)
  {
    MomentIs(config, p);
    NextShape(config, p, step);
    ConfirmActs(config, Now(p), step);
    hide AnswersHold, ProofHolds, Inv, Grows, Next, Act;
    var q, s := Next(config, p, step), Now(p);
    var job := s.jobs[step.call];
    ConfirmingHolds(config, p, q, step.call);
    AnswersHoldWith(config, q, s.answers, step.call, Denied(NotRecognized));
    if job.agentDID in s.enrollments && s.enrollments[job.agentDID].status.Active? {
      AnswersHoldWith(config, q, s.answers, step.call, Authenticated(job.agentDID, job.proof, s.moment));
    }
  }

  /** Every other answer claims nothing about the past. */
  lemma OtherAnswers(config: Config, q: Past, s: State, step: Step)
    requires q.h != [] && AnswersHold(config, q, s.answers)
    requires !(step.Confirm? && Busy(s, step.call) && s.jobs[step.call].Confirming?)
    requires !(step.RevokeNext? && Busy(s, step.call) && s.jobs[step.call].Revoking?)
    ensures AnswersHold(config, q, Act(config, s, step).answers)
  {
    hide AnswersHold, ApplyCheckGrant, ApplyIssue, ApplyCheckRevoke, ApplyPresent, ApplyTry;
    var s' := Act(config, s, step);
    if s'.answers != s.answers {
      assert Modest(s, s', step.call);
      AnswersHoldWith(config, q, s.answers, step.call, s'.answers[step.call]);
    }
  }

  // ---------------------------------------------------- 7. one assertion each

  /** A job that confirms an assertion confirms one that is already consumed. */
  ghost predicate BelowCount(jobs: map<CallId, Job>, n: nat) {
    forall t :: t in jobs && jobs[t].Confirming? && jobs[t].proof.Assertion? ==> jobs[t].proof.index < n
  }

  lemma JobsBelowCount(config: Config, p: Past)
    requires Inv(config, p)
    ensures BelowCount(Now(p).jobs, |Now(p).attempts|)
  {
    forall t | t in Now(p).jobs && Now(p).jobs[t].Confirming? && Now(p).jobs[t].proof.Assertion?
      ensures Now(p).jobs[t].proof.index < |Now(p).attempts|
    {
      assert JobHolds(config, p, t, Now(p).jobs[t]);
    }
  }

  /** A call's job changes only while the call is unanswered. */
  lemma DistinctWith(jobs: map<CallId, Job>, answers: map<CallId, Answer>, t: CallId, job: Job, n: nat)
    requires Distinct(jobs, answers) && BelowCount(jobs, n) && t !in answers
    requires job.Confirming? && job.proof.Assertion? ==> job.proof.index == n
    ensures Distinct(jobs[t := job], answers)
  {
  }

  lemma DistinctAnswer(jobs: map<CallId, Job>, answers: map<CallId, Answer>, t: CallId, answer: Answer)
    requires Distinct(jobs, answers)
    requires answer.Authenticated? ==> t in jobs && jobs[t] == Confirming(answer.agentDID, answer.proof)
    ensures Distinct(jobs, answers[t := answer])
  {
  }

  /** What one step does to the jobs and answers, all steps alike. */
  ghost predicate OneCall(s: State, s': State, t: CallId) {
    || (s'.jobs == s.jobs && s'.answers == s.answers)
    || (s'.jobs == s.jobs && t !in s.answers && t in s'.answers && s'.answers == s.answers[t := s'.answers[t]]
        && (s'.answers[t].Authenticated? ==> t in s.jobs && s.jobs[t] == Confirming(s'.answers[t].agentDID, s'.answers[t].proof)))
    || (s'.answers == s.answers && t !in s.answers && t in s'.jobs && s'.jobs == s.jobs[t := s'.jobs[t]]
        && (s'.jobs[t].Confirming? && s'.jobs[t].proof.Assertion? ==> s'.jobs[t].proof.index == |s.attempts|))
  }

  lemma ApplyOneCall(config: Config, s: State, step: Step)
    ensures step.CheckGrant? && Fresh(s, step.call) ==> OneCall(s, ApplyCheckGrant(config, s, step.call, step.agentDID, step.grantType), step.call)
    ensures step.CheckRevoke? && Fresh(s, step.call) ==> OneCall(s, ApplyCheckRevoke(config, s, step.call, step.agentDID, step.request, step.at), step.call)
    ensures step.Confirm? && Busy(s, step.call) && s.jobs[step.call].Confirming? ==> OneCall(s, ApplyConfirm(s, step.call), step.call)
    ensures step.RevokeNext? && Busy(s, step.call) && s.jobs[step.call].Revoking? ==> OneCall(s, ApplyRevokeNext(config, s, step.call), step.call)
  {
    hide Eligible, RevokeIn;
  }

  lemma IssueOneCall(config: Config, s: State, t: CallId, credential: Option<C.Issued>, now: Time)
    requires Busy(s, t) && s.jobs[t].Issuing?
    ensures OneCall(s, ApplyIssue(config, s, t, credential, now), t)
  {
    hide IssuedRecord, C.Accepts, C.Saved;
  }

  lemma PresentOneCall(config: Config, s: State, t: CallId, headers: A.Headers, now: Time, attempt: R.Attempt)
    requires Fresh(s, t)
    ensures OneCall(s, ApplyPresent(config, s, t, headers, now, attempt), t)
  {
    PresentShape(config, s, t, headers, now, attempt);
    hide ApplyPresent, R.Recognizes, R.After;
  }

  lemma TryOneCall(config: Config, s: State, t: CallId, detected: bool)
    requires Busy(s, t) && s.jobs[t].Trying? && s.jobs[t].index < |config.methods|
    ensures OneCall(s, ApplyTry(config, s, t, detected), t)
  {
    TryShape(config, s, t, detected);
    hide ApplyTry;
  }

  lemma NextDistinct(config: Config, p: Past, step: Step)
    requires Inv(config, p)
    ensures var s' := Act(config, Now(p), step); Distinct(s'.jobs, s'.answers)
  {
    JobsBelowCount(config, p);
    InvDistinct(config, p);
    var s, s' := Now(p), Act(config, Now(p), step);
    ActOneCall(config, s, step);
    hide Inv, Distinct, Act, BelowCount;
    if s'.jobs != s.jobs {
      DistinctWith(s.jobs, s.answers, step.call, s'.jobs[step.call], |s.attempts|);
    } else if s'.answers != s.answers {
      DistinctAnswer(s.jobs, s.answers, step.call, s'.answers[step.call]);
    }
  }

  lemma InvDistinct(config: Config, p: Past)
    requires Inv(config, p)
    ensures Distinct(Now(p).jobs, Now(p).answers)
  {
  }

  lemma ActOneCall(config: Config, s: State, step: Step)
    ensures var s' := Act(config, s, step);
            || (s'.jobs == s.jobs && s'.answers == s.answers)
            || (!step.ChangeEnrollments? && !step.OtherCommand? && OneCall(s, s', step.call))
  {
    hide OneCall, ApplyCheckGrant, ApplyIssue, ApplyCheckRevoke, ApplyRevokeNext, ApplyPresent, ApplyTry, ApplyConfirm;
    match step
    case Issue(t, credential, now) => if Busy(s, t) && s.jobs[t].Issuing? { IssueOneCall(config, s, t, credential, now); }
    case Present(t, headers, now, attempt) => if Fresh(s, t) { PresentOneCall(config, s, t, headers, now, attempt); }
    case Try(t, detected) =>
      if Busy(s, t) && s.jobs[t].Trying? && s.jobs[t].index < |config.methods| { TryOneCall(config, s, t, detected); }
    case Conclude(t) => ConcludeOneCall(config, s, t);
    case _ => ApplyOneCall(config, s, step);
  }

  lemma ConcludeOneCall(config: Config, s: State, t: CallId)
    ensures OneCall(s, Act(config, s, Conclude(t)), t)
  {
  }

  // --------------------------------------------------------- 8. every run

  lemma NextKeepsInv(config: Config, p: Past, step: Step)
    requires Inv(config, p)
    ensures Inv(config, Next(config, p, step))
  {
    NextGrows(config, p, step);
    NextKeepsKept(config, p, step);
    NextBacks(config, p, step);
    NextJobs(config, p, step);
    NextAnswers(config, p, step);
    NextDistinct(config, p, step);
    MomentIs(config, p);
    NextShape(config, p, step);
    hide Kept, Backed, OriginsHold, JobsHold, AnswersHold, Distinct, Grows, Act, Next;
  }

  lemma NextKeepsKept(config: Config, p: Past, step: Step)
    requires Inv(config, p)
    ensures Kept(Next(config, p, step))
  {
    NextKeeps(config, p, step);
  }

  ghost function PastOf(config: Config, run: seq<Step>): (p: Past)
    ensures p.run == run && |p.h| == |run| + 1
  {
    Past(run, Trace(config, run))
  }

  lemma PastOfLast(config: Config, run: seq<Step>)
    requires run != []
    ensures var n := |run| - 1; PastOf(config, run) == Next(config, PastOf(config, run[..n]), run[n])
  {
    hide Apply;
    assert run == run[..|run| - 1] + [run[|run| - 1]];
  }

  lemma {:induction false} RunKeepsInv(config: Config, run: seq<Step>)
    ensures Inv(config, PastOf(config, run))
  {
    if run == [] {
      EmptyPast(config);
    } else {
      hide Inv, PastOf, Next;
      var n := |run| - 1;
      RunKeepsInv(config, run[..n]);
      NextKeepsInv(config, PastOf(config, run[..n]), run[n]);
      PastOfLast(config, run);
    }
  }

  lemma EmptyPast(config: Config)
    ensures Inv(config, PastOf(config, []))
  {
    var p := PastOf(config, []);
    assert p.h == [START] && Now(p) == START;
    TablesExtendReflexive(START.tables);
  }

  // -------------------------------------------------------- 9. theorems

  lemma {:induction false} TracePrefix(config: Config, run: seq<Step>, k: nat)
    requires k <= |run|
    ensures Trace(config, run[..k]) == Trace(config, run)[..k + 1]
  {
    hide Apply;
    if k == |run| {
      assert run[..k] == run;
    } else {
      var n := |run| - 1;
      TracePrefix(config, run[..n], k);
      assert run[..n][..k] == run[..k];
    }
  }

  /** At every moment the tables are valid, and everything later extends them. */
  lemma MomentsKeep(config: Config, run: seq<Step>, j: Moment, k: Moment)
    requires j <= k <= |run|
    ensures var h := Trace(config, run);
            TablesValid(h[k].tables) && TablesExtend(h[j].tables, h[k].tables)
  {
    hide TablesValid, TablesExtend, Trace;
    TracePrefix(config, run, k);
    var p := PastOf(config, run[..k]);
    RunKeepsInv(config, run[..k]);
    assert Kept(p) by { InvKept(config, p); }
    assert p.h[j] == Trace(config, run)[j] && Now(p) == Trace(config, run)[k];
  }

  lemma InvKept(config: Config, p: Past)
    requires Inv(config, p)
    ensures Kept(p)
  {
  }

  ghost predicate InSession(s: State, t: CallId) {
    t in s.answers && s.answers[t].Authenticated? && s.answers[t].proof.Session?
  }

  lemma AnswerInRun(config: Config, run: seq<Step>, t: CallId)
    requires t in Now(PastOf(config, run)).answers
    ensures AnswerHolds(config, PastOf(config, run), Now(PastOf(config, run)).answers[t])
    ensures OriginsHold(config, PastOf(config, run), Now(PastOf(config, run)).origins)
    ensures Now(PastOf(config, run)) == Trace(config, run)[|run|]
  {
    RunKeepsInv(config, run);
    hide AnswerHolds, OriginsHold, Kept, Backed, Distinct, JobsHold, Complete, Trace;
  }

  /** The session credential behind an access: a Grant call of the same agent saw its
      enrollment active with nothing missing, and later put that very credential into
      the store; at the lookup it was presented alone, unexpired and unrevoked; after
      the lookup the enrollment was read again and found active. */
  ghost predicate Earned(config: Config, p: Past, a: Answer, o: Origin)
    requires a.Authenticated? && a.proof.Session?
  {
    var name := config.storeOf(a.proof.grantType);
    && o.checkedAt < o.savedAt < a.proof.lookedAt < a.confirmedAt < |p.h| == |p.run| + 1
    && Checked(config, p, o.call, a.agentDID, a.proof.grantType, o.checkedAt)
    && p.run[o.savedAt].Issue? && p.run[o.savedAt].call == o.call
    && a.proof.id !in TableOf(p.h[o.savedAt].tables, name) && a.proof.id in TableOf(p.h[o.savedAt + 1].tables, name)
    && C.Answers(config.lib, TableOf(p.h[a.proof.lookedAt].tables, name), a.proof.grantType, a.proof.input, a.proof.id)
    && a.agentDID in p.h[a.confirmedAt].enrollments && p.h[a.confirmedAt].enrollments[a.agentDID].status.Active?
  }

  lemma HeldAnswersAreEarned(config: Config, p: Past, a: Answer)
    requires Complete(config, p) && a.Authenticated? && a.proof.Session?
    requires AnswerHolds(config, p, a) && OriginsHold(config, p, Now(p).origins)
    ensures (config.storeOf(a.proof.grantType), a.proof.id) in Now(p).origins
    ensures Earned(config, p, a, Now(p).origins[(config.storeOf(a.proof.grantType), a.proof.id)])
  {
    var key := (config.storeOf(a.proof.grantType), a.proof.id);
    assert OriginHolds(config, p, key, Now(p).origins[key]);
    hide EligibleAt, C.Answers, OriginsHold;
  }

  /** Whoever is let in with a session credential earned it, in every run. */
  lemma SessionPrincipalsAreEarned(config: Config, run: seq<Step>, t: CallId)
    requires InSession(Trace(config, run)[|run|], t)
    ensures var s := Trace(config, run)[|run|];
            var a := s.answers[t];
            var key := (config.storeOf(a.proof.grantType), a.proof.id);
            key in s.origins && Earned(config, PastOf(config, run), a, s.origins[key])
  {
    AnswerInRun(config, run, t);
    RunKeepsInv(config, run);
    MomentIs(config, PastOf(config, run));
    hide Earned, Trace, PastOf, Inv, AnswerHolds, OriginsHold;
    HeldAnswersAreEarned(config, PastOf(config, run), Now(PastOf(config, run)).answers[t]);
  }

  /** And it was not revoked at any moment up to the lookup. */
  lemma SessionsWereNeverRevoked(config: Config, run: seq<Step>, t: CallId, j: Moment)
    requires InSession(Trace(config, run)[|run|], t)
    requires j <= Trace(config, run)[|run|].answers[t].proof.lookedAt && j <= |run|
    ensures var proof := Trace(config, run)[|run|].answers[t].proof;
            !IsRevoked(Trace(config, run)[j].tables, config.storeOf(proof.grantType), proof.id)
  {
    hide IsRevoked, TablesExtend, C.Sole, Trace;
    var proof := Trace(config, run)[|run|].answers[t].proof;
    var name := config.storeOf(proof.grantType);
    if IsRevoked(Trace(config, run)[j].tables, name, proof.id) {
      RevocationIsFinal(config, run, t, j, name, proof.id);
      assert false;
    }
  }

  /** When Revoke answers, every credential it is about that existed when it began is
      revoked, although its loop over the Grant Types is not atomic. */
  lemma RevokeIsComplete(config: Config, run: seq<Step>, t: CallId)
    requires var s := Trace(config, run)[|run|]; t in s.answers && s.answers[t].Revoked?
    ensures var h := Trace(config, run); var a := h[|run|].answers[t];
            && a.startedAt <= |run|
            && forall g, id | Covered(config, h[a.startedAt], a.agentDID, a.request, g, id) ::
                 IsRevoked(h[|run|].tables, config.storeOf(g), id)
  {
    AnswerInRun(config, run, t);
    hide Covered, IsRevoked, Trace;
  }

  /** A revoked secret lets nobody in again: an access whose lookup comes after the
      revocation was not let in by that credential, nor by any other credential with
      the same secret. */
  lemma RevocationIsFinal(config: Config, run: seq<Step>, t: CallId, j: Moment, name: StoreName, id: string)
    requires InSession(Trace(config, run)[|run|], t)
    requires j <= Trace(config, run)[|run|].answers[t].proof.lookedAt && j <= |run|
    requires IsRevoked(Trace(config, run)[j].tables, name, id)
    requires config.storeOf(Trace(config, run)[|run|].answers[t].proof.grantType) == name
    ensures var h := Trace(config, run); var proof := h[|run|].answers[t].proof;
            && proof.lookedAt <= |run|
            && var table := TableOf(h[proof.lookedAt].tables, name);
               && id in table && proof.id in table
               && !C.SameSecret(table[proof.id], table[id])
  {
    AnswerInRun(config, run, t);
    var p := PastOf(config, run);
    assert p.h == Trace(config, run);
    var proof := Now(p).answers[t].proof;
    assert ProofHolds(config, p, Now(p).answers[t].agentDID, proof);
    var k := proof.lookedAt;
    hide TablesExtend, C.Sole, Trace;
    MomentsKeep(config, run, j, k);
    RevokedStays(p.h[j].tables, p.h[k].tables, name, id);
    var table := TableOf(p.h[k].tables, name);
    assert CR.Valid(table);
    assert table[proof.id].revokedAt == ZERO_TIME;
  }

  ghost predicate ByAssertion(s: State, t: CallId) {
    t in s.answers && s.answers[t].Authenticated? && s.answers[t].proof.Assertion?
  }

  /** An assertion lets its subject in at most once: two accesses that were let in by
      the same verified claims are one access.  The subject's enrollment was active. */
  lemma OneAccessPerAssertion(config: Config, run: seq<Step>, t: CallId, u: CallId)
    requires var s := Trace(config, run)[|run|]; ByAssertion(s, t) && ByAssertion(s, u) && R.Ordered(config.replay, s.attempts)
    ensures var s := Trace(config, run)[|run|];
            var i, j := s.answers[t].proof.index, s.answers[u].proof.index;
            i < |s.attempts| && j < |s.attempts| && (s.attempts[i].verified == s.attempts[j].verified ==> t == u)
  {
    AnswerInRun(config, run, t);
    AnswerInRun(config, run, u);
    RunKeepsInv(config, run);
    var s := Now(PastOf(config, run));
    hide Kept, Backed, OriginsHold, JobsHold, AnswersHold, R.Ordered, R.Accepted, Trace;
    var i, j := s.answers[t].proof.index, s.answers[u].proof.index;
    if s.attempts[i].verified == s.attempts[j].verified {
      R.AcceptedAtMostOnce(config.replay, s.attempts, i, j);
    }
  }

  /** Such an access was recognised with an authenticate assertion of that subject, by a
      Service that advertises assertions. */
  lemma AssertedPrincipalsAreSubjects(config: Config, run: seq<Step>, t: CallId)
    requires ByAssertion(Trace(config, run)[|run|], t)
    ensures var h := Trace(config, run); var s := h[|run|]; var a := s.answers[t]; var i := a.proof.index;
            && "aep-jwt" in config.methods
            && i < |s.attempts| && R.Accepted(config.replay, s.attempts, i)
            && s.attempts[i].operation == AUTHENTICATE
            && s.attempts[i].verified.value.subject == a.agentDID
            && a.confirmedAt <= |run| && a.agentDID in h[a.confirmedAt].enrollments
            && h[a.confirmedAt].enrollments[a.agentDID].status.Active?
  {
    AnswerInRun(config, run, t);
    hide R.Accepted, Trace;
  }

  /** A handler never has to refuse what its own store matched. */
  lemma MatchesAreValid(config: Config, run: seq<Step>, g: C.GrantType, input: C.Input)
    requires C.Authenticate(config.lib, TableOf(Trace(config, run)[|run|].tables, config.storeOf(g)), g, input).Some?
    ensures !InvalidMatch(C.Authenticate(config.lib, TableOf(Trace(config, run)[|run|].tables, config.storeOf(g)), g, input).value, g, input.now)
  {
    MomentsKeep(config, run, |run|, |run|);
    hide TablesExtend, C.Sole, Trace;
    assert CR.Valid(TableOf(Trace(config, run)[|run|].tables, config.storeOf(g)));
  }

  // ------------------------------------------- 10. and whoever may, gets in

  ghost function After(config: Config, run: seq<Step>): State {
    Trace(config, run)[|run|]
  }

  lemma AfterStep(config: Config, run: seq<Step>, step: Step)
    ensures After(config, run + [step]) == Apply(config, After(config, run), step)
  {
    hide Apply;
    assert (run + [step])[..|run + [step]| - 1] == run;
  }

  /** What the handler of the k-th method finds. */
  ghost function Found(config: Config, tables: map<StoreName, C.Table>, input: C.Input, k: nat): Option<C.Stored>
    requires k < |config.methods|
  {
    if config.methods[k] == JWT then None
    else C.Authenticate(config.lib, TableOf(tables, config.storeOf(config.methods[k])), config.methods[k], input)
  }

  /** The call is about to try the k-th method, in an otherwise unchanged state. */
  ghost predicate ReadyAt(s: State, s': State, t: CallId, input: C.Input, k: nat) {
    && s'.tables == s.tables && s'.enrollments == s.enrollments
    && Busy(s', t) && s'.jobs[t].Trying? && s'.jobs[t].index == k && s'.jobs[t].input == input
  }

  lemma MethodIsPassedOver(config: Config, s: State, t: CallId, input: C.Input, k: nat)
    requires ReadyAt(s, s, t, input, k) && k < |config.methods| && Found(config, s.tables, input, k).None?
    ensures ReadyAt(s, Apply(config, s, Try(t, false)), t, input, k + 1)
  {
    TryActs(config, s, Try(t, false));
    hide Act, C.Authenticate, InvalidMatch;
  }

  /** Methods that find nothing are passed over. */
  lemma {:induction false} MethodsArePassedOver(config: Config, run: seq<Step>, s: State, t: CallId, input: C.Input, i: nat, k: nat)
    returns (more: seq<Step>)
    requires ReadyAt(s, After(config, run), t, input, i) && i <= k <= |config.methods|
    requires forall j :: i <= j < k ==> Found(config, s.tables, input, j).None?
    ensures ReadyAt(s, After(config, run + more), t, input, k)
    decreases k - i
  {
    more := [];
    assert run + [] == run;
    if i < k {
      AfterStep(config, run, Try(t, false));
      MethodIsPassedOver(config, After(config, run), t, input, i);
      hide After, Found, Apply;
      var rest := MethodsArePassedOver(config, run + [Try(t, false)], s, t, input, i + 1, k);
      more := [Try(t, false)] + rest;
      assert run + more == run + [Try(t, false)] + rest;
    }
  }

  function Shown(config: Config, headers: A.Headers, now: Time): C.Input
    requires A.Select(config.grammar, headers).Some?
  {
    C.Input(A.Effective(headers, A.Select(config.grammar, headers).value), now)
  }

  predicate IsAssertion(config: Config, headers: A.Headers) {
    var selected := A.Select(config.grammar, headers);
    var authorization := if selected.Some? && selected.value != "" then selected.value else A.FirstValue(headers(C.AUTHORIZATION));
    var parsed := config.grammar.standard(authorization);
    parsed.Some? && parsed.value.scheme.AEP?
  }

  lemma PresentingStarts(config: Config, s: State, t: CallId, headers: A.Headers, now: Time, attempt: R.Attempt)
    requires Fresh(s, t) && A.Select(config.grammar, headers).Some? && !IsAssertion(config, headers)
    ensures ReadyAt(s, Apply(config, s, Present(t, headers, now, attempt)), t, Shown(config, headers, now), 0)
  {
    PresentActs(config, s, Present(t, headers, now, attempt));
    hide Act, A.Effective, A.Select, R.Recognizes;
  }

  lemma MatchIsConfirmed(config: Config, run: seq<Step>, s: State, t: CallId, input: C.Input, k: nat)
    requires ReadyAt(s, After(config, run), t, input, k) && k < |config.methods|
    requires var found := Found(config, s.tables, input, k);
             found.Some? && found.value.agentDID in s.enrollments && s.enrollments[found.value.agentDID].status.Active?
    ensures var s' := After(config, run + [Try(t, false)] + [Confirm(t)]);
            var found := Found(config, s.tables, input, k).value;
            && InSession(s', t) && s'.answers[t].agentDID == found.agentDID
            && s'.answers[t].proof.grantType == config.methods[k] && s'.answers[t].proof.id == found.credentialID
  {
    MatchesAreValid(config, run, config.methods[k], input);
    AfterStep(config, run, Try(t, false));
    AfterStep(config, run + [Try(t, false)], Confirm(t));
    TryActs(config, After(config, run), Try(t, false));
    hide C.Authenticate, InvalidMatch, Trace;
    ConfirmActs(config, Apply(config, After(config, run), Try(t, false)), Confirm(t));
  }

  /** Completeness: a request that presents a live credential of an active agent is
      let in as that agent, if no method advertised before the credential's finds
      anything; no other call has to move. */
  lemma LiveCredentialsAdmit(config: Config, run: seq<Step>, t: CallId, headers: A.Headers, now: Time, attempt: R.Attempt, k: nat)
    returns (more: seq<Step>)
    requires t !in After(config, run).jobs && t !in After(config, run).answers && k < |config.methods|
    requires A.Select(config.grammar, headers).Some? && !IsAssertion(config, headers)
    requires forall j :: 0 <= j < k ==> Found(config, After(config, run).tables, Shown(config, headers, now), j).None?
    requires var s := After(config, run);
             var found := Found(config, s.tables, Shown(config, headers, now), k);
             found.Some? && found.value.agentDID in s.enrollments && s.enrollments[found.value.agentDID].status.Active?
    ensures var s' := After(config, run + more);
            var found := Found(config, After(config, run).tables, Shown(config, headers, now), k).value;
            && InSession(s', t) && s'.answers[t].agentDID == found.agentDID
            && s'.answers[t].proof.grantType == config.methods[k] && s'.answers[t].proof.id == found.credentialID
  {
    hide After, Found, Shown, IsAssertion, ReadyAt, InSession, Apply, A.Select;
    var present, s, input := Present(t, headers, now, attempt), After(config, run), Shown(config, headers, now);
    AfterStep(config, run, present);
    PresentingStarts(config, s, t, headers, now, attempt);
    var skipped := MethodsArePassedOver(config, run + [present], s, t, input, 0, k);
    var before := run + [present] + skipped;
    MatchIsConfirmed(config, before, s, t, input, k);
    more := [present] + skipped + [Try(t, false)] + [Confirm(t)];
    assert run + more == before + [Try(t, false)] + [Confirm(t)];
  }

  // --------------------------------- 11. what each request is answered, exactly

  lemma MomentsAreSteps(config: Config, run: seq<Step>)
    ensures After(config, run).moment == |run|
  {
    RunKeepsInv(config, run);
    MomentIs(config, PastOf(config, run));
    hide Inv, Trace;
  }

  function AuthorizationOf(headers: A.Headers, selected: string): string {
    if selected != "" then selected else if headers("Authorization") == [] then "" else headers("Authorization")[0]
  }

  /** What presenting a request comes to: an ambiguous one is refused, an assertion is
      refused unseen if the Service does not advertise assertions, and otherwise it is
      consumed and then accepted or not; any other request tries the methods. */
  ghost predicate PresentedRightly(config: Config, s: State, s': State, t: CallId, headers: A.Headers, now: Time, attempt: R.Attempt) {
    var a := attempt.(presented := true, operation := "authenticate");
    if A.Select(config.grammar, headers).None? then
      s'.attempts == s.attempts && t in s'.answers && s'.answers[t] == Denied(NotRecognized)
    else if !IsAssertion(config, headers) then
      var authorization := AuthorizationOf(headers, A.Select(config.grammar, headers).value);
      && s'.attempts == s.attempts && Busy(s', t)
      && s'.jobs[t] == Trying(Shown(config, headers, now), 0, authorization, config.scheme(authorization) != "", false)
    else if "aep-jwt" !in config.methods then
      s'.attempts == s.attempts && t in s'.answers && s'.answers[t] == Denied(UnsupportedMethod)
    else
      && s'.attempts == s.attempts + [a]
      && if R.Accepted(config.replay, s'.attempts, |s.attempts|)
         then Busy(s', t) && s'.jobs[t] == Confirming(a.verified.value.subject, Assertion(|s.attempts|))
         else t in s'.answers && s'.answers[t] == Denied(NotRecognized)
  }

  lemma PresentsDecide(config: Config, run: seq<Step>, t: CallId, headers: A.Headers, now: Time, attempt: R.Attempt)
    requires t !in After(config, run).jobs && t !in After(config, run).answers
    ensures var s, s' := After(config, run), After(config, run + [Present(t, headers, now, attempt)]);
            && s'.enrollments == s.enrollments && s'.tables == s.tables
            && PresentedRightly(config, s, s', t, headers, now, attempt)
  {
    AfterStep(config, run, Present(t, headers, now, attempt));
    hide After, Apply, PresentedRightly, A.Select, IsAssertion;
    var s := After(config, run);
    if A.Select(config.grammar, headers).Some? && IsAssertion(config, headers) {
      AssertionIsPresented(config, s, t, headers, now, attempt);
    } else {
      OtherIsPresented(config, s, t, headers, now, attempt);
    }
  }

  lemma OtherIsPresented(config: Config, s: State, t: CallId, headers: A.Headers, now: Time, attempt: R.Attempt)
    requires Fresh(s, t) && (A.Select(config.grammar, headers).None? || !IsAssertion(config, headers))
    ensures var s' := Apply(config, s, Present(t, headers, now, attempt));
            && s'.enrollments == s.enrollments && s'.tables == s.tables
            && PresentedRightly(config, s, s', t, headers, now, attempt)
  {
    PresentActs(config, s, Present(t, headers, now, attempt));
    hide Act, A.Select, A.Effective, R.After, R.Recognizes, R.Accepted;
  }

  lemma AssertionIsPresented(config: Config, s: State, t: CallId, headers: A.Headers, now: Time, attempt: R.Attempt)
    requires Fresh(s, t) && A.Select(config.grammar, headers).Some? && IsAssertion(config, headers)
    ensures var s' := Apply(config, s, Present(t, headers, now, attempt));
            && s'.enrollments == s.enrollments && s'.tables == s.tables
            && PresentedRightly(config, s, s', t, headers, now, attempt)
  {
    PresentActs(config, s, Present(t, headers, now, attempt));
    AssertionIsConsumed(config, s, t, headers, now, attempt);
    RecognizedIsAccepted(config, s.attempts, Asserted(attempt));
    hide Act, ApplyPresent, IsAssertion, A.Select, R.After, R.Recognizes, R.Accepted;
  }

  lemma AssertionIsConsumed(config: Config, s: State, t: CallId, headers: A.Headers, now: Time, attempt: R.Attempt)
    requires A.Select(config.grammar, headers).Some? && IsAssertion(config, headers)
    ensures var s', a := ApplyPresent(config, s, t, headers, now, attempt), Asserted(attempt);
            if JWT !in config.methods then s' == Answering(s, t, Denied(UnsupportedMethod))
            else if R.Recognizes(config.replay, R.After(config.replay, s.attempts), a)
            then s' == s.(attempts := s.attempts + [a], jobs := s.jobs[t := Confirming(a.verified.value.subject, Assertion(|s.attempts|))])
            else s' == s.(attempts := s.attempts + [a], answers := s.answers[t := Denied(NotRecognized)])
  {
    hide A.Select, A.Effective, R.After, R.Recognizes;
  }

  lemma RecognizedIsAccepted(config: Config, attempts: seq<R.Attempt>, a: R.Attempt)
    ensures R.Accepted(config.replay, attempts + [a], |attempts|) <==> R.Recognizes(config.replay, R.After(config.replay, attempts), a)
    ensures a == (attempts + [a])[|attempts|]
  {
    assert (attempts + [a])[..|attempts|] == attempts;
    hide R.Recognizes, R.After;
  }

  /** What confirming comes to: the agent is let in exactly if its enrollment is active now. */
  lemma ConfirmsDecide(config: Config, run: seq<Step>, t: CallId)
    requires var s := After(config, run); Busy(s, t) && s.jobs[t].Confirming?
    ensures var s, s' := After(config, run), After(config, run + [Confirm(t)]); var job := s.jobs[t];
            && t in s'.answers && s'.attempts == s.attempts
            && s'.answers[t] == if job.agentDID in s.enrollments && s.enrollments[job.agentDID].status.Active?
                                then Authenticated(job.agentDID, job.proof, |run|) else Denied(NotRecognized)
  {
    AfterStep(config, run, Confirm(t));
    MomentsAreSteps(config, run);
    ConfirmActs(config, After(config, run), Confirm(t));
    hide After, Act;
  }

  /** Completeness for assertions: a request that presents an assertion which the Service
      accepts is let in as the assertion's subject, if its enrollment is active. */
  lemma AssertionsAdmit(config: Config, run: seq<Step>, t: CallId, headers: A.Headers, now: Time, attempt: R.Attempt)
    requires t !in After(config, run).jobs && t !in After(config, run).answers && A.Select(config.grammar, headers).Some? && IsAssertion(config, headers)
    requires "aep-jwt" in config.methods
    requires var s := After(config, run); var a := attempt.(presented := true, operation := "authenticate");
             && R.Accepted(config.replay, s.attempts + [a], |s.attempts|)
             && a.verified.value.subject in s.enrollments && s.enrollments[a.verified.value.subject].status.Active?
    ensures var s' := After(config, run + [Present(t, headers, now, attempt)] + [Confirm(t)]);
            && ByAssertion(s', t) && s'.answers[t].agentDID == attempt.verified.value.subject
            && s'.attempts == After(config, run).attempts + [attempt.(presented := true, operation := "authenticate")]
  {
    hide After, A.Select, IsAssertion, R.Accepted;
    PresentsDecide(config, run, t, headers, now, attempt);
    ConfirmsDecide(config, run + [Present(t, headers, now, attempt)], t);
  }

  // ---- why a request is denied

  /** Trying one method after the other; `detected` is what their detectors say. */
  function Tries(t: CallId, detected: seq<bool>): seq<Step> {
    if detected == [] then [] else Tries(t, detected[..|detected| - 1]) + [Try(t, detected[|detected| - 1])]
  }

  /** Some method of the Service, other than assertions, detects a presentation. */
  ghost predicate AnyDetects(config: Config, detected: seq<bool>)
    requires |detected| <= |config.methods|
  {
    exists k :: 0 <= k < |detected| && detected[k] && config.methods[k] != "aep-jwt"
  }

  lemma {:induction false} TriesFindNothing(config: Config, run: seq<Step>, t: CallId, input: C.Input, authorization: string, presented: bool, detected: seq<bool>)
    requires |detected| <= |config.methods|
    requires var s := After(config, run); Busy(s, t) && s.jobs[t] == Trying(input, 0, authorization, presented, false)
    requires forall k :: 0 <= k < |detected| ==> Found(config, After(config, run).tables, input, k).None?
    ensures var s, s' := After(config, run), After(config, run + Tries(t, detected));
            && s'.tables == s.tables && Busy(s', t)
            && s'.jobs[t] == Trying(input, |detected|, authorization, presented || AnyDetects(config, detected), AnyDetects(config, detected))
  {
    if detected == [] {
      assert run + Tries(t, detected) == run;
    } else {
      hide After, Found, Tries;
      var n := |detected| - 1;
      TriesFindNothing(config, run, t, input, authorization, presented, detected[..n]);
      var before := run + Tries(t, detected[..n]);
      assert run + Tries(t, detected) == before + [Try(t, detected[n])] by { LastTry(t, detected); }
      AfterStep(config, before, Try(t, detected[n]));
      hide Apply;
      NothingFoundMovesOn(config, After(config, before), t, detected[n]);
      assert AnyDetects(config, detected) <==> AnyDetects(config, detected[..n]) || (detected[n] && config.methods[n] != "aep-jwt") by {
        hide *;
        LastDetects(config, detected);
      }
    }
  }

  lemma LastTry(t: CallId, detected: seq<bool>)
    requires detected != []
    ensures var n := |detected| - 1; Tries(t, detected) == Tries(t, detected[..n]) + [Try(t, detected[n])]
  {
  }

  lemma LastDetects(config: Config, detected: seq<bool>)
    requires detected != [] && |detected| <= |config.methods|
    ensures var n := |detected| - 1;
            AnyDetects(config, detected) <==> AnyDetects(config, detected[..n]) || (detected[n] && config.methods[n] != "aep-jwt")
  {
    var n := |detected| - 1;
    assert forall k :: 0 <= k < n ==> detected[..n][k] == detected[k];
    if AnyDetects(config, detected[..n]) {
      var k :| 0 <= k < n && detected[..n][k] && config.methods[k] != "aep-jwt";
      assert detected[k];
    }
  }

  lemma NothingFoundMovesOn(config: Config, s: State, t: CallId, detected: bool)
    requires Busy(s, t) && s.jobs[t].Trying? && s.jobs[t].index < |config.methods|
    requires Found(config, s.tables, s.jobs[t].input, s.jobs[t].index).None?
    ensures var s', job := Apply(config, s, Try(t, detected)), s.jobs[t];
            var seen := detected && config.methods[job.index] != "aep-jwt";
            && s'.tables == s.tables && Busy(s', t)
            && s'.jobs[t] == job.(index := job.index + 1, presented := job.presented || seen, advertised := job.advertised || seen)
  {
    TryActs(config, s, Try(t, detected));
    hide Act, C.Authenticate, InvalidMatch;
  }

  /** Why a request without an assertion that no method recognises is denied: its scheme
      belongs to a method that the Service does not advertise, and nothing that it does
      advertise was presented; or something was presented; or nothing at all. */
  lemma DenialsHaveAReason(config: Config, run: seq<Step>, t: CallId, headers: A.Headers, now: Time, attempt: R.Attempt, detected: seq<bool>)
    requires t !in After(config, run).jobs && t !in After(config, run).answers && A.Select(config.grammar, headers).Some? && !IsAssertion(config, headers)
    requires |detected| == |config.methods|
    requires forall k :: 0 <= k < |config.methods| ==> Found(config, After(config, run).tables, Shown(config, headers, now), k).None?
    ensures var s' := After(config, run + [Present(t, headers, now, attempt)] + Tries(t, detected) + [Conclude(t)]);
            var authorization := AuthorizationOf(headers, A.Select(config.grammar, headers).value);
            var scheme, seen := config.scheme(authorization), AnyDetects(config, detected);
            && t in s'.answers
            && s'.answers[t] == Denied(
                 if scheme != "" && scheme !in config.methods && !seen && config.grammar.standard(authorization).Some? then UnsupportedMethod
                 else if scheme != "" || seen then NotRecognized
                 else AuthenticationRequired)
  {
    hide After, A.Select, IsAssertion, Found, Shown, AuthorizationOf, AnyDetects, Tries;
    var presented := run + [Present(t, headers, now, attempt)];
    var tried := presented + Tries(t, detected);
    var authorization := AuthorizationOf(headers, A.Select(config.grammar, headers).value);
    PresentsDecide(config, run, t, headers, now, attempt);
    TriesFindNothing(config, presented, t, Shown(config, headers, now), authorization, config.scheme(authorization) != "", detected);
    AfterStep(config, tried, Conclude(t));
    hide Apply;
    ConcludingDenies(config, After(config, tried), t);
  }

  lemma ConcludingDenies(config: Config, s: State, t: CallId)
    requires Busy(s, t) && s.jobs[t].Trying? && s.jobs[t].index >= |config.methods|
    ensures var s', job := Apply(config, s, Conclude(t)), s.jobs[t];
            var scheme := config.scheme(job.authorization);
            && t in s'.answers
            && s'.answers[t] == Denied(
                 if scheme != "" && scheme !in config.methods && !job.advertised && config.grammar.standard(job.authorization).Some? then UnsupportedMethod
                 else if job.presented then NotRecognized
                 else AuthenticationRequired)
  {
  }

  // ---- Grant

  /** An enrollment that may be granted credentials. */
  ghost predicate MayBeGranted(config: E.Config, r: E.Record) {
    && r.status.Active?
    && (forall name :: name in config.requiredClaims ==> name in E.NamesOf(r.claims))
    && forall id :: !E.Lacks(config.documents, r, id)
  }

  lemma EligibleExactly(config: E.Config, r: E.Record)
    ensures Eligible(config, r) <==> MayBeGranted(config, r)
  {
    E.NothingLeft(config.requiredClaims, E.NamesOf(r.claims));
    var missing := E.MissingIDs(config.documents, r);
    forall id ensures id in missing <==> E.Lacks(config.documents, r, id) {
      E.MissingIDsAreLacking(config.documents, r, id);
    }
    assert missing != [] ==> missing[0] in missing;
    hide E.Lacks, E.Without, E.NamesOf, E.MissingIDs;
  }

  /** Grant goes on to issue exactly for an agent that may be granted, and a known type. */
  lemma GrantChecksDecide(config: Config, run: seq<Step>, t: CallId, agentDID: string, g: C.GrantType)
    requires t !in After(config, run).jobs && t !in After(config, run).answers
    ensures var s, s' := After(config, run), After(config, run + [CheckGrant(t, agentDID, g)]);
            if agentDID in s.enrollments && MayBeGranted(config.enrollment, s.enrollments[agentDID]) && g in config.handlers
            then Busy(s', t) && s'.jobs[t] == Issuing(agentDID, g, |run|) && s'.tables == s.tables
            else t in s'.answers && s'.answers[t] == Denied(Refused)
  {
    AfterStep(config, run, CheckGrant(t, agentDID, g));
    MomentsAreSteps(config, run);
    var s := After(config, run);
    if agentDID in s.enrollments {
      EligibleExactly(config.enrollment, s.enrollments[agentDID]);
    }
    hide After, Eligible, MayBeGranted;
  }

  /** The record that the handler makes of an issued credential. */
  function RecordOf(agentDID: string, g: C.GrantType, credential: C.Issued, expiresAt: Time, now: Time): C.Record {
    C.Record(agentDID, now, credential, credential.credentialID, expiresAt, g)
  }

  lemma IssuedExactly(config: Config, agentDID: string, g: C.GrantType, credential: C.Issued, now: Time, table: C.Table)
    ensures var r, expiry := IssuedRecord(config, agentDID, g, credential, now), config.lib.parseTime(credential.expiresAt);
            && (r.Some? && C.Accepts(config.lib, table, r.value) <==>
                  && expiry.Some? && config.advertisesHeader(credential)
                  && C.Accepts(config.lib, table, RecordOf(agentDID, g, credential, expiry.value, now)))
            && (r.Some? ==> expiry.Some? && r.value == RecordOf(agentDID, g, credential, expiry.value, now))
  {
  }

  /** A credential is granted exactly if its header is advertised and its store accepts its
      record; it is then in the store, and otherwise the store is as before. */
  lemma IssuesDecide(config: Config, run: seq<Step>, t: CallId, credential: C.Issued, now: Time)
    requires var s := After(config, run); Busy(s, t) && s.jobs[t].Issuing?
    ensures var s, s' := After(config, run), After(config, run + [Issue(t, Some(credential), now)]); var job := s.jobs[t];
            var name, expiry := config.storeOf(job.grantType), config.lib.parseTime(credential.expiresAt);
            var table := TableOf(s.tables, name);
            && t in s'.answers
            && if && expiry.Some? && config.advertisesHeader(credential)
                  && C.Accepts(config.lib, table, RecordOf(job.agentDID, job.grantType, credential, expiry.value, now))
               then && s'.answers[t] == Granted(credential.credentialID)
                    && s'.tables == s.tables[name := C.Saved(config.lib, table, RecordOf(job.agentDID, job.grantType, credential, expiry.value, now))]
               else s'.answers[t] == Failed && s'.tables == s.tables
  {
    AfterStep(config, run, Issue(t, Some(credential), now));
    var s := After(config, run);
    IssuedExactly(config, s.jobs[t].agentDID, s.jobs[t].grantType, credential, now, TableOf(s.tables, config.storeOf(s.jobs[t].grantType)));
    hide After, IssuedRecord, C.Accepts, C.Saved, RecordOf;
    IssueIs(config, s, t, credential, now);
    hide Apply;
  }

  lemma IssueIs(config: Config, s: State, t: CallId, credential: C.Issued, now: Time)
    requires Busy(s, t) && s.jobs[t].Issuing?
    ensures var s', job := Apply(config, s, Issue(t, Some(credential), now)), s.jobs[t];
            var r, name := IssuedRecord(config, job.agentDID, job.grantType, credential, now), config.storeOf(job.grantType);
            && t in s'.answers
            && if r.Some? && C.Accepts(config.lib, TableOf(s.tables, name), r.value)
               then s'.answers[t] == Granted(r.value.credentialID) && s'.tables == s.tables[name := C.Saved(config.lib, TableOf(s.tables, name), r.value)]
               else s'.answers[t] == Failed && s'.tables == s.tables
  {
    hide IssuedRecord, C.Accepts, C.Saved;
  }

  // ---- Revoke

  /** Revoke starts exactly for an enrolled agent and a known type. */
  lemma RevokeChecksDecide(config: Config, run: seq<Step>, t: CallId, agentDID: string, request: RevokeRequest, at: Time)
    requires t !in After(config, run).jobs && t !in After(config, run).answers
    ensures var s, s' := After(config, run), After(config, run + [CheckRevoke(t, agentDID, request, at)]);
            if agentDID in s.enrollments && (request.AllTypes? || request.grantType in config.handlers)
            then Busy(s', t) && s'.jobs[t] == Revoking(agentDID, request, if request.AllTypes? then config.handlers else [request.grantType], at, |run|)
            else t in s'.answers && s'.answers[t] == Denied(Refused)
  {
    AfterStep(config, run, CheckRevoke(t, agentDID, request, at));
    MomentsAreSteps(config, run);
    hide After;
  }

  lemma RevokeIsNext(config: Config, s: State, t: CallId)
    requires Busy(s, t) && s.jobs[t].Revoking?
    ensures var s', job := Apply(config, s, RevokeNext(t)), s.jobs[t];
            && (job.todo == [] ==> t in s'.answers && s'.answers[t] == Revoked(job.agentDID, job.request, job.startedAt))
            && (job.todo != [] && job.at != ZERO_TIME ==> Busy(s', t) && s'.jobs[t] == job.(todo := job.todo[1..]))
  {
    hide RevokeIn;
  }

  /** Completeness: a Revoke that starts is answered after one step for each Grant Type. */
  lemma {:induction false} RevokesFinish(config: Config, run: seq<Step>, t: CallId) returns (more: seq<Step>)
    requires var s := After(config, run); Busy(s, t) && s.jobs[t].Revoking? && s.jobs[t].at != ZERO_TIME
    ensures var s, s' := After(config, run), After(config, run + more); var job := s.jobs[t];
            t in s'.answers && s'.answers[t] == Revoked(job.agentDID, job.request, job.startedAt)
    ensures |more| == |After(config, run).jobs[t].todo| + 1
    decreases |After(config, run).jobs[t].todo|
  {
    var step := [RevokeNext(t)];
    AfterStep(config, run, RevokeNext(t));
    RevokeIsNext(config, After(config, run), t);
    hide After, Apply;
    more := step;
    if After(config, run).jobs[t].todo != [] {
      var rest := RevokesFinish(config, run + step, t);
      more := step + rest;
      assert run + more == run + step + rest;
    }
  }

  /** This step withdraws this credential. */
  ghost predicate WithdrawsNow(config: Config, s: State, step: Step, name: StoreName, id: string)
    requires id in TableOf(s.tables, name)
  {
    && step.RevokeNext? && Busy(s, step.call) && s.jobs[step.call].Revoking?
    && var job, r := s.jobs[step.call], TableOf(s.tables, name)[id];
       && job.todo != [] && job.at != ZERO_TIME && config.storeOf(job.todo[0]) == name
       && r.agentDID == job.agentDID && r.grantType == job.todo[0] && (job.request.OneCredential? ==> job.request.id == id)
  }

  /** Every step leaves every stored credential as it is, except that a Revoke withdraws
      those it is about. */
  lemma StepsWithdrawExactly(config: Config, s: State, step: Step, name: StoreName, id: string)
    requires id in TableOf(s.tables, name)
    ensures var s', r := Act(config, s, step), TableOf(s.tables, name)[id];
            && id in TableOf(s'.tables, name)
            && TableOf(s'.tables, name)[id] == if WithdrawsNow(config, s, step, name, id) then r.(revokedAt := s.jobs[step.call].at) else r
  {
    QuietActs(config, s, step);
    hide Act, ApplyIssue, ApplyRevokeNext;
    if step.Issue? {
      IssueKeepsRecords(config, s, step, name, id);
    } else if step.RevokeNext? {
      RevokeWithdrawsExactly(config, s, step, name, id);
    }
  }

  lemma IssueKeepsRecords(config: Config, s: State, step: Step, name: StoreName, id: string)
    requires step.Issue? && id in TableOf(s.tables, name)
    ensures var s' := Act(config, s, step);
            id in TableOf(s'.tables, name) && TableOf(s'.tables, name)[id] == TableOf(s.tables, name)[id]
  {
    if Busy(s, step.call) && s.jobs[step.call].Issuing? && step.credential.Some? {
      IssueIs(config, s, step.call, step.credential.value, step.now);
      hide Act, IssuedRecord, C.Accepts, C.Saved;
      var job := s.jobs[step.call];
      var r := IssuedRecord(config, job.agentDID, job.grantType, step.credential.value, step.now);
      var table := TableOf(s.tables, config.storeOf(job.grantType));
      if r.Some? && C.Accepts(config.lib, table, r.value) {
        StoredRecord(config, job.agentDID, job.grantType, step.credential.value, step.now, r.value, table);
      }
    }
  }

  lemma RevokeWithdrawsExactly(config: Config, s: State, step: Step, name: StoreName, id: string)
    requires step.RevokeNext? && id in TableOf(s.tables, name)
    ensures var s', r := Act(config, s, step), TableOf(s.tables, name)[id];
            && id in TableOf(s'.tables, name)
            && TableOf(s'.tables, name)[id] == if WithdrawsNow(config, s, step, name, id) then r.(revokedAt := s.jobs[step.call].at) else r
  {
    hide C.RevokedOne, C.RevokedAll;
    if Busy(s, step.call) && s.jobs[step.call].Revoking? && s.jobs[step.call].todo != [] && s.jobs[step.call].at != ZERO_TIME {
      var job := s.jobs[step.call];
      var g := job.todo[0];
      var op := if job.request.OneCredential? then CR.RevokeOne(job.agentDID, g, job.request.id, job.at) else CR.RevokeAll(job.agentDID, g, job.at);
      var table := TableOf(s.tables, config.storeOf(g));
      assert RevokeIn(table, job.agentDID, g, job.request, job.at) == CR.Apply(config.lib, table, op);
      if config.storeOf(g) == name {
        CR.WithdrawsExactly(config.lib, table, op, id);
      }
    }
  }

  /** A new credential is not revoked. */
  lemma NewCredentialsAreLive(config: Config, s: State, step: Step, name: StoreName, id: string)
    requires id !in TableOf(s.tables, name) && id in TableOf(Act(config, s, step).tables, name)
    ensures TableOf(Act(config, s, step).tables, name)[id].revokedAt == ZERO_TIME
  {
    QuietActs(config, s, step);
    if step.Issue? {
      var r := IssueCases(config, s, step);
      if r.Some? {
        SavedIsLive(config, s, step, r.value);
      }
    } else if step.RevokeNext? && Busy(s, step.call) && s.jobs[step.call].Revoking? && s.jobs[step.call].todo != [] {
      var job := s.jobs[step.call];
      RevokingKeepsLabels(TableOf(s.tables, config.storeOf(job.todo[0])), job.agentDID, job.todo[0], job.request, job.at);
    }
  }

  lemma SavedIsLive(config: Config, s: State, step: Step, r: C.Record)
    requires Saves(config, s, step, r)
    ensures var name := config.storeOf(s.jobs[step.call].grantType);
            && Act(config, s, step).tables == s.tables[name := C.Saved(config.lib, TableOf(s.tables, name), r)]
            && C.Saved(config.lib, TableOf(s.tables, name), r) == TableOf(s.tables, name)[r.credentialID := C.Store(config.lib, r).value]
            && C.Store(config.lib, r).value.revokedAt == ZERO_TIME
  {
    hide IssuedRecord;
  }

  /** Who asked to revoke what, and when. */
  datatype Revocation = Revocation(call: CallId, request: RevokeRequest, at: Time, askedAt: Moment, doneAt: Moment)

  /** Call `v.call` asked, for the credential's own agent, to revoke what includes it. */
  ghost predicate IsRevocationOf(config: Config, run: seq<Step>, v: Revocation, r: C.Stored) {
    && v.askedAt < v.doneAt < |run|
    && run[v.askedAt] == CheckRevoke(v.call, r.agentDID, v.request, v.at) && run[v.doneAt] == RevokeNext(v.call)
    && r.agentDID in After(config, run[..v.askedAt]).enrollments
    && Concerns(config, v.request, r.grantType) && (v.request.OneCredential? ==> v.request.id == r.credentialID)
  }

  /** Nobody else's credentials: a credential is revoked only by a Revoke of its own agent,
      which was enrolled, and which asked for all types, its type, or this credential. */
  lemma {:induction false} RevocationsAreAsked(config: Config, run: seq<Step>, name: StoreName, id: string) returns (v: Revocation)
    requires IsRevoked(After(config, run).tables, name, id)
    ensures IsRevocationOf(config, run, v, TableOf(After(config, run).tables, name)[id])
  {
    var n := |run| - 1;
    assert run != [] by { assert Trace(config, []) == [START]; }
    assert run == run[..n] + [run[n]];
    AfterStep(config, run[..n], run[n]);
    var s, s' := After(config, run[..n]), After(config, run);
    hide After, Act, WithdrawsNow, IsRevocationOf;
    assert s'.tables == Act(config, s, run[n]).tables;
    if id in TableOf(s.tables, name) {
      StepsWithdrawExactly(config, s, run[n], name, id);
      if TableOf(s.tables, name)[id].revokedAt != ZERO_TIME {
        v := RevocationsAreAsked(config, run[..n], name, id);
        RevocationGrows(config, run, n, v, TableOf(s.tables, name)[id], TableOf(s'.tables, name)[id]);
      } else {
        v := RevokedByTheLast(config, run[..n], run[n], name, id);
      }
    } else {
      NewCredentialsAreLive(config, s, run[n], name, id);
    }
  }

  lemma RevocationGrows(config: Config, run: seq<Step>, n: nat, v: Revocation, r: C.Stored, r': C.Stored)
    requires n <= |run| && IsRevocationOf(config, run[..n], v, r)
    requires r'.agentDID == r.agentDID && r'.grantType == r.grantType && r'.credentialID == r.credentialID
    ensures IsRevocationOf(config, run, v, r')
  {
    assert run[..n][..v.askedAt] == run[..v.askedAt];
    hide After, Concerns;
  }

  lemma RevokedByTheLast(config: Config, run: seq<Step>, step: Step, name: StoreName, id: string) returns (v: Revocation)
    requires id in TableOf(After(config, run).tables, name) && WithdrawsNow(config, After(config, run), step, name, id)
    ensures forall r: C.Stored | r == TableOf(After(config, run).tables, name)[id].(revokedAt := r.revokedAt) :: IsRevocationOf(config, run + [step], v, r)
  {
    var s := After(config, run);
    var job := s.jobs[step.call];
    v := Revocation(step.call, job.request, job.at, job.startedAt, |run|);
    JobInRun(config, run, step.call);
    IdentifiersAreKeys(config, run, name, id);
    TracePrefix(config, run, job.startedAt);
    assert (run + [step])[..job.startedAt] == run[..job.startedAt];
    hide Trace, Inv, TablesValid, TablesExtend, RevokedExcept;
  }

  lemma JobInRun(config: Config, run: seq<Step>, t: CallId)
    requires t in After(config, run).jobs
    ensures JobHolds(config, PastOf(config, run), t, After(config, run).jobs[t])
  {
    RunKeepsInv(config, run);
    hide JobHolds, Kept, Backed, OriginsHold, AnswersHold, Distinct, Complete, Trace;
  }

  lemma IdentifiersAreKeys(config: Config, run: seq<Step>, name: StoreName, id: string)
    requires id in TableOf(After(config, run).tables, name)
    ensures TableOf(After(config, run).tables, name)[id].credentialID == id
  {
    MomentsKeep(config, run, |run|, |run|);
    hide TablesExtend, Trace;
    assert CR.Valid(TableOf(After(config, run).tables, name));
  }
}
