/** Hosted verification: every interleaving of Verify calls.

Each call runs inside the idempotency store, and its execution consumes a replay
key in a second store.  The signature, the validity window, the lifecycle policy
and the key store are arbitrary; only what the code compares is kept.  Parsing an
assertion is a fixed function, and so is hashing a request.  */
module HostedVerification {
  import opened Prelude
  import opened DIDSyntax
  import S = IdempotencyStore
  import I = IdempotencyRuns
  import F = Flights

  type CallId = F.CallId

  datatype Claims = Claims(
    issuer: string,
    subject: string,
    audience: string,
    operation: string,
    resource: string,
    jwtID: string,
    expiresAt: Time)

  /** What the unverified decoding of an assertion yields. */
  datatype Decoded = Decoded(keyID: string, claims: Claims)

  datatype Request = Request(assertion: string, operation: string, resource: string, serviceDID: string)

  /** The identity as it was read before the idempotency store was entered. */
  datatype Identity = Identity(agentDID: string, serviceDID: string, active: bool)

  datatype Call = Call(principal: string, key: string, request: Request, identity: Identity)

  /** `isHTTPS` says whether a text is an absolute HTTPS URL. */
  datatype Config = Config(decode: string -> Option<Decoded>, hash: Request -> string, isHTTPS: string -> bool)

  /** Everything Verify checks before it enters the idempotency store. */
  predicate Admissible(config: Config, c: Call) {
    && c.request.assertion != "" && IsAssertionOperation(c.request.operation) && IsDID(c.request.serviceDID)
    && (if c.request.operation == AUTHENTICATE then c.request.resource != "" && config.isHTTPS(c.request.resource) else c.request.resource == "")
    && c.key != "" && c.principal != ""
    && config.hash(c.request) != ""
    && var decoded := config.decode(c.request.assertion);
       && decoded.Some?
       && var claims := decoded.value.claims;
          && claims.issuer != "" && claims.issuer == claims.subject && decoded.value.keyID == claims.issuer
          && c.identity.agentDID == claims.issuer
          && c.identity.serviceDID == c.request.serviceDID
  }

  /** The comparisons of VerifyClientAssertion: an empty option is not compared. */
  predicate ClaimsMatch(claims: Claims, c: Call) {
    && (c.request.serviceDID == "" || claims.audience == c.request.serviceDID)
    && (c.identity.agentDID == "" || (claims.issuer == c.identity.agentDID && claims.subject == c.identity.agentDID))
    && (c.request.operation == "" || claims.operation == c.request.operation)
    && (c.request.resource == "" || claims.resource == c.request.resource)
  }

  function Input(config: Config, c: Call): S.Input {
    S.Input(c.principal, "hosted_verification", c.key, config.hash(c.request), config.hash(c.request))
  }

  function ReplayKey(c: Call, claims: Claims): string {
    c.request.serviceDID + NUL + c.request.operation + NUL + c.identity.agentDID + NUL + claims.jwtID
  }

  // ---------------------------------------------------------- replay store

  function Pruned(records: map<string, Time>, now: Time): map<string, Time> {
    map k | k in records && records[k] > now :: records[k]
  }

  predicate Consumable(records: map<string, Time>, key: string, expiresAt: Time, now: Time) {
    expiresAt > now && key !in Pruned(records, now)
  }

  function Consumed(records: map<string, Time>, key: string, expiresAt: Time, now: Time): map<string, Time> {
    if !(expiresAt > now) then records
    else if key in Pruned(records, now) then Pruned(records, now)
    else Pruned(records, now)[key := expiresAt]
  }

  class MemoryReplayStore {
    var records: map<string, Time>

    constructor ()
      ensures records == map[]
    {
      records := map[];
    }

    /** Prunes while ranging over the map, in whatever order the map yields. */
    method ConsumeReplay(key: string, expiresAt: Time, now: Time) returns (result: Result<bool>)
      modifies this
      ensures result.Err? <==> key == "" || expiresAt == ZERO_TIME
      ensures result.Err? ==> records == old(records)
      ensures result.Ok? ==> result.value == old(Consumable(records, key, expiresAt, now))
      ensures result.Ok? ==> records == old(Consumed(records, key, expiresAt, now))
    {
      if key == "" || expiresAt == ZERO_TIME {
        return Err("invalid input");
      }
      if !(expiresAt > now) {
        return Ok(false);
      }
      var left := records.Keys;
      while left != {}
        invariant left <= old(records).Keys
        invariant records == map k | k in old(records) && (k in left || old(records)[k] > now) :: old(records)[k]
      {
        var existing :| existing in left;
        if !(records[existing] > now) {
          records := records - {existing};
        }
        left := left - {existing};
      }
      assert records == Pruned(old(records), now);
      if key in records {
        return Ok(false);
      }
      records := records[key := expiresAt];
      return Ok(true);
    }
  }

  // ---------------------------------------------------------------- machine

  datatype Verdict = Verified | Unrecognized

  function Reason(v: Verdict): string {
    if v.Verified? then "verified" else "not_recognized"
  }

  /** The stored response; of its body only the reason is kept. */
  function ResponseOf(v: Verdict): S.Response {
    S.Response(Reason(v), "application/aep+json", ZERO_TIME, map[], 200)
  }

  datatype State = State(
    idem: I.State,
    replay: map<string, Time>,
    replayClock: Time,
    calls: map<CallId, Call>,
    verdicts: map<CallId, Verdict>)

  datatype Step =
    | Invoke(call: CallId, asked: Call)
    | Idle(step: I.Step)                                     // clock ticks, lookups, waiting, cancellation
    | ReplayTick(now: Time)
    | Check(call: CallId, allowed: bool, genuine: bool)      // the execution, up to and including ConsumeReplay
    | Fail(call: CallId)                                     // the execution returned an error before that
    | Return(call: CallId)                                   // the execution returned its response

  const START := State(I.START, map[], ZERO_TIME, map[], map[])

  /** The execution's answer, and whether it reaches the replay store. */
  function Reaches(config: Config, c: Call, allowed: bool, genuine: bool): Option<Claims> {
    if !allowed || !c.identity.active then None
    else if !genuine || config.decode(c.request.assertion).None? then None
    else
      var claims := config.decode(c.request.assertion).value.claims;
      if !ClaimsMatch(claims, c) || (c.request.operation != AUTHENTICATE && claims.resource != "") then None
      else Some(claims)
  }

  predicate Executing(s: State, t: CallId) {
    t in s.calls && F.IsRunning(s.idem.flight, t) && t !in s.verdicts
  }

  function ApplyCheck(config: Config, s: State, t: CallId, allowed: bool, genuine: bool): State
    requires Executing(s, t)
  {
    var c := s.calls[t];
    match Reaches(config, c, allowed, genuine)
    case None => s.(verdicts := s.verdicts[t := Unrecognized])
    case Some(claims) =>
      var key := ReplayKey(c, claims);
      if claims.expiresAt == ZERO_TIME then s   // the store refuses the input: only Fail can follow
      else s.(replay := Consumed(s.replay, key, claims.expiresAt, s.replayClock),
              verdicts := s.verdicts[t := if Consumable(s.replay, key, claims.expiresAt, s.replayClock) then Verified else Unrecognized])
  }

  function Apply(config: Config, s: State, step: Step): State {
    match step
    case Invoke(t, c) =>
      if t in s.calls || t in s.idem.calls || t in s.idem.flight.phases || !Admissible(config, c) then s
      else s.(calls := s.calls[t := c], idem := I.Apply(s.idem, I.Invoke(t, Input(config, c))))
    case Idle(step) =>
      if step.Invoke? || step.Return? then s else s.(idem := I.Apply(s.idem, step))
    case ReplayTick(now) =>
      if now < s.replayClock then s else s.(replayClock := now)
    case Check(t, allowed, genuine) =>
      if Executing(s, t) then ApplyCheck(config, s, t, allowed, genuine) else s
    case Fail(t) =>
      if Executing(s, t) then s.(idem := I.Apply(s.idem, I.Return(t, Err("execution failed")))) else s
    case Return(t) =>
      if F.IsRunning(s.idem.flight, t) && t in s.verdicts
      then s.(idem := I.Apply(s.idem, I.Return(t, Ok(ResponseOf(s.verdicts[t])))))
      else s
  }

  function After(config: Config, run: seq<Step>): State {
    if run == [] then START else Apply(config, After(config, run[..|run| - 1]), run[|run| - 1])
  }

  // -------------------------------------------------------------- invariant

  ghost predicate Asked(config: Config, calls: map<CallId, Call>, inputs: map<CallId, S.Input>) {
    && calls.Keys == inputs.Keys
    && forall t :: t in calls ==> Admissible(config, calls[t]) && inputs[t] == Input(config, calls[t])
  }

  function ClaimsOf(config: Config, c: Call): Claims
    requires Admissible(config, c)
  {
    config.decode(c.request.assertion).value.claims
  }

  /** A verified assertion blocks its key for as long as it could still be accepted. */
  ghost predicate Blocked(config: Config, calls: map<CallId, Call>, verdicts: map<CallId, Verdict>, replay: map<string, Time>, now: Time) {
    forall t :: t in verdicts && verdicts[t].Verified? ==>
      && t in calls && Admissible(config, calls[t])
      && var claims := ClaimsOf(config, calls[t]);
         && ClaimsMatch(claims, calls[t])
         && (claims.expiresAt > now ==>
               var key := ReplayKey(calls[t], claims); key in replay && replay[key] == claims.expiresAt)
  }

  /** What makes two assertions one for the replay store: their texts may differ. */
  function Ticket(c: Claims): (string, string, string, string, Time) {
    (c.audience, c.operation, c.issuer, c.jwtID, c.expiresAt)
  }

  predicate SameTicket(config: Config, c: Call, d: Call) {
    Admissible(config, c) && Admissible(config, d) && Ticket(ClaimsOf(config, c)) == Ticket(ClaimsOf(config, d))
  }

  ghost predicate OncePerTicket(config: Config, calls: map<CallId, Call>, verdicts: map<CallId, Verdict>) {
    forall t, u | t in verdicts && u in verdicts && verdicts[t].Verified? && verdicts[u].Verified? && t in calls && u in calls ::
      SameTicket(config, calls[t], calls[u]) ==> t == u
  }

  /** What an execution stored is what its check decided. */
  ghost predicate Honest(verdicts: map<CallId, Verdict>, answers: map<CallId, I.Answer>) {
    forall t :: t in answers && answers[t].Created? ==> t in verdicts && answers[t].response.body == Reason(verdicts[t])
  }

  ghost predicate Inv(config: Config, s: State) {
    && I.Inv(s.idem)
    && Asked(config, s.calls, s.idem.calls)
    && Blocked(config, s.calls, s.verdicts, s.replay, s.replayClock)
    && OncePerTicket(config, s.calls, s.verdicts)
    && Honest(s.verdicts, s.idem.answers)
  }

  /** The replay key does not depend on who asks: the compared claims determine it. */
  lemma ReplayKeyBelongsToTheTicket(config: Config, c: Call, d: Call)
    requires SameTicket(config, c, d)
    requires ClaimsMatch(ClaimsOf(config, c), c) && ClaimsMatch(ClaimsOf(config, d), d)
    ensures ReplayKey(c, ClaimsOf(config, c)) == ReplayKey(d, ClaimsOf(config, d))
    ensures ClaimsOf(config, c).expiresAt == ClaimsOf(config, d).expiresAt
  {
    assert c.request.serviceDID != "" && d.request.serviceDID != "";
    assert c.request.operation != "" && d.request.operation != "";
  }

  /** A check that consumes is the first to do so for its ticket. */
  lemma ConsumingIsNew(config: Config, s: State, t: CallId, u: CallId, claims: Claims)
    requires Asked(config, s.calls, s.idem.calls)
    requires Blocked(config, s.calls, s.verdicts, s.replay, s.replayClock)
    requires t in s.calls && ClaimsMatch(claims, s.calls[t]) && claims == ClaimsOf(config, s.calls[t])
    requires Consumable(s.replay, ReplayKey(s.calls[t], claims), claims.expiresAt, s.replayClock)
    requires u in s.verdicts && s.verdicts[u].Verified?
    ensures !SameTicket(config, s.calls[u], s.calls[t])
  {
    hide Admissible, ClaimsMatch, ReplayKey, SameTicket, ClaimsOf;
    if SameTicket(config, s.calls[u], s.calls[t]) {
      ReplayKeyBelongsToTheTicket(config, s.calls[u], s.calls[t]);
      assert false;
    }
  }

  /** Consuming one key leaves every other live key blocked. */
  lemma ConsumingKeepsBlocked(config: Config, s: State, t: CallId, claims: Claims)
    requires Asked(config, s.calls, s.idem.calls)
    requires Blocked(config, s.calls, s.verdicts, s.replay, s.replayClock)
    requires t in s.calls && t !in s.verdicts && ClaimsMatch(claims, s.calls[t]) && claims == ClaimsOf(config, s.calls[t])
    ensures var key := ReplayKey(s.calls[t], claims);
            var verdict := if Consumable(s.replay, key, claims.expiresAt, s.replayClock) then Verified else Unrecognized;
            Blocked(config, s.calls, s.verdicts[t := verdict], Consumed(s.replay, key, claims.expiresAt, s.replayClock), s.replayClock)
  {
    hide Admissible, ClaimsMatch, ReplayKey;
  }

  lemma ReachedClaimsAreTheAssertions(config: Config, c: Call, allowed: bool, genuine: bool)
    requires Admissible(config, c) && Reaches(config, c, allowed, genuine).Some?
    ensures var claims := Reaches(config, c, allowed, genuine).value;
            claims == ClaimsOf(config, c) && ClaimsMatch(claims, c)
  {
  }

  lemma SameTicketIsSymmetric(config: Config, c: Call, d: Call)
    ensures SameTicket(config, c, d) <==> SameTicket(config, d, c)
  {
  }

  lemma ConsumingIsTheOnlyOne(config: Config, s: State, t: CallId, claims: Claims)
    requires Asked(config, s.calls, s.idem.calls)
    requires Blocked(config, s.calls, s.verdicts, s.replay, s.replayClock)
    requires OncePerTicket(config, s.calls, s.verdicts)
    requires t in s.calls && t !in s.verdicts && ClaimsMatch(claims, s.calls[t]) && claims == ClaimsOf(config, s.calls[t])
    ensures var verdict := if Consumable(s.replay, ReplayKey(s.calls[t], claims), claims.expiresAt, s.replayClock) then Verified else Unrecognized;
            OncePerTicket(config, s.calls, s.verdicts[t := verdict])
  {
    hide Asked, Blocked, Admissible, ClaimsMatch, ClaimsOf, ReplayKey, Consumable, SameTicket;
    if Consumable(s.replay, ReplayKey(s.calls[t], claims), claims.expiresAt, s.replayClock) {
      forall u | u in s.verdicts && s.verdicts[u].Verified? && u in s.calls
        ensures !SameTicket(config, s.calls[u], s.calls[t]) && !SameTicket(config, s.calls[t], s.calls[u])
      {
        ConsumingIsNew(config, s, t, u, claims);
        SameTicketIsSymmetric(config, s.calls[u], s.calls[t]);
      }
    }
  }

  lemma AskedIsAdmissible(config: Config, s: State, t: CallId)
    requires Asked(config, s.calls, s.idem.calls) && t in s.calls
    ensures Admissible(config, s.calls[t])
  {
  }

  lemma CheckKeepsInv(config: Config, s: State, t: CallId, allowed: bool, genuine: bool)
    requires Inv(config, s) && Executing(s, t)
    ensures Inv(config, ApplyCheck(config, s, t, allowed, genuine))
  {
    hide I.Inv, Asked, Blocked, OncePerTicket, Honest, Admissible, ClaimsMatch, ReplayKey, ClaimsOf, Consumed, Consumable, Reaches;
    var c := s.calls[t];
    var reached := Reaches(config, c, allowed, genuine);
    AskedIsAdmissible(config, s, t);
    if reached.None? {
      CheckIsHonest(s, t, Unrecognized);
      UnrecognizedKeepsBlocked(config, s.calls, s.verdicts, s.replay, s.replayClock, t);
      UnrecognizedKeepsOnce(config, s.calls, s.verdicts, t);
    } else if reached.value.expiresAt != ZERO_TIME {
      var claims := reached.value;
      ReachedClaimsAreTheAssertions(config, c, allowed, genuine);
      ConsumingKeepsBlocked(config, s, t, claims);
      ConsumingIsTheOnlyOne(config, s, t, claims);
      CheckIsHonest(s, t, Verified);
      CheckIsHonest(s, t, Unrecognized);
    }
  }

  lemma UnrecognizedKeepsOnce(config: Config, calls: map<CallId, Call>, verdicts: map<CallId, Verdict>, t: CallId)
    requires OncePerTicket(config, calls, verdicts)
    ensures OncePerTicket(config, calls, verdicts[t := Unrecognized])
  {
  }

  lemma UnrecognizedKeepsBlocked(config: Config, calls: map<CallId, Call>, verdicts: map<CallId, Verdict>, replay: map<string, Time>, now: Time, t: CallId)
    requires Blocked(config, calls, verdicts, replay, now) && t !in verdicts
    ensures Blocked(config, calls, verdicts[t := Unrecognized], replay, now)
  {
    hide Admissible, ClaimsMatch, ReplayKey;
  }

  /** A running call has no answer yet, so a verdict contradicts none. */
  lemma CheckIsHonest(s: State, t: CallId, v: Verdict)
    requires I.Inv(s.idem) && Honest(s.verdicts, s.idem.answers) && Executing(s, t)
    ensures Honest(s.verdicts[t := v], s.idem.answers)
  {
  }

  lemma ArrivalAddsACall(s: I.State, t: CallId, input: S.Input)
    requires t !in s.calls && t !in s.flight.phases && S.ValidInput(input)
    ensures var s' := I.Apply(s, I.Invoke(t, input)); s'.calls == s.calls[t := input] && s'.answers == s.answers
  {
  }

  lemma ArrivalKeepsCalls(config: Config, s: State, t: CallId, c: Call)
    requires Asked(config, s.calls, s.idem.calls)
    requires Blocked(config, s.calls, s.verdicts, s.replay, s.replayClock) && OncePerTicket(config, s.calls, s.verdicts)
    requires Admissible(config, c) && t !in s.calls
    ensures var calls := s.calls[t := c];
            && Asked(config, calls, s.idem.calls[t := Input(config, c)])
            && Blocked(config, calls, s.verdicts, s.replay, s.replayClock)
            && OncePerTicket(config, calls, s.verdicts)
    ensures S.ValidInput(Input(config, c))
  {
    hide Admissible, ClaimsMatch, ReplayKey, Input;
    AdmissibleInput(config, c);
    ArrivalKeepsBlocked(config, s, t, c);
  }

  lemma AdmissibleInput(config: Config, c: Call)
    requires Admissible(config, c)
    ensures S.ValidInput(Input(config, c))
  {
  }

  lemma ArrivalKeepsBlocked(config: Config, s: State, t: CallId, c: Call)
    requires Blocked(config, s.calls, s.verdicts, s.replay, s.replayClock) && t !in s.calls
    ensures Blocked(config, s.calls[t := c], s.verdicts, s.replay, s.replayClock)
  {
    hide Admissible, ClaimsMatch, ReplayKey, Input;
  }

  lemma InvokeKeepsInv(config: Config, s: State, t: CallId, c: Call)
    requires Inv(config, s) && Admissible(config, c) && t !in s.calls && t !in s.idem.calls && t !in s.idem.flight.phases
    ensures Inv(config, s.(calls := s.calls[t := c], idem := I.Apply(s.idem, I.Invoke(t, Input(config, c)))))
  {
    hide I.Inv, I.Apply, Asked, Blocked, OncePerTicket, Honest, Admissible, Input, S.ValidInput;
    ArrivalKeepsCalls(config, s, t, c);
    ArrivalAddsACall(s.idem, t, Input(config, c));
    I.ApplyKeepsInv(s.idem, I.Invoke(t, Input(config, c)));
  }

  /** Steps of the idempotency store other than arrivals and returns. */
  lemma IdleKeepsInv(config: Config, s: State, step: I.Step)
    requires Inv(config, s) && !step.Invoke? && !step.Return?
    ensures Inv(config, s.(idem := I.Apply(s.idem, step)))
  {
    IdleCreatesNothing(s.idem, step);
    hide I.Inv, I.Apply, Admissible, Blocked, OncePerTicket, Input;
    I.ApplyKeepsInv(s.idem, step);
  }

  lemma IdleCreatesNothing(s: I.State, step: I.Step)
    requires !step.Invoke? && !step.Return?
    ensures var s' := I.Apply(s, step);
            && s'.calls == s.calls
            && forall t :: t in s'.answers && s'.answers[t].Created? ==> t in s.answers && s'.answers[t] == s.answers[t]
  {
    hide S.Swept, S.StoreKey, S.Matches, F.Leave, F.Park, F.Begin, F.Wake, F.CanWake;
  }

  lemma ReturnKeepsInv(config: Config, s: State, t: CallId, outcome: Result<S.Response>)
    requires Inv(config, s) && F.IsRunning(s.idem.flight, t)
    requires outcome.Ok? ==> t in s.verdicts && outcome.value == ResponseOf(s.verdicts[t])
    ensures Inv(config, s.(idem := I.Apply(s.idem, I.Return(t, outcome))))
  {
    ReturnAnswersOnlyItself(s.idem, t, outcome);
    hide I.Inv, I.Apply, Admissible, Blocked, OncePerTicket, Input;
    I.ApplyKeepsInv(s.idem, I.Return(t, outcome));
  }

  lemma ReturnAnswersOnlyItself(s: I.State, t: CallId, outcome: Result<S.Response>)
    ensures var s' := I.Apply(s, I.Return(t, outcome));
            && s'.calls == s.calls
            && (forall u :: u in s'.answers && u != t ==> u in s.answers && s'.answers[u] == s.answers[u])
            && (t in s'.answers && s'.answers[t].Created? ==>
                  (t in s.answers && s'.answers[t] == s.answers[t])
                  || (outcome.Ok? && s'.answers[t].response.body == outcome.value.body))
  {
  }

  lemma ApplyKeepsInv(config: Config, s: State, step: Step)
    requires Inv(config, s)
    ensures Inv(config, Apply(config, s, step))
  {
    if Apply(config, s, step) != s {
      if step.ReplayTick? {
        LaterKeepsBlocked(config, s.calls, s.verdicts, s.replay, s.replayClock, step.now);
      }
      hide I.Inv, I.Apply, Asked, Blocked, OncePerTicket, Honest, Admissible, ApplyCheck;
      match step
      case Invoke(t, c) => InvokeKeepsInv(config, s, t, c);
      case Idle(inner) => IdleKeepsInv(config, s, inner);
      case ReplayTick(now) =>
      case Check(t, allowed, genuine) => CheckKeepsInv(config, s, t, allowed, genuine);
      case Fail(t) => ReturnKeepsInv(config, s, t, Err("execution failed"));
      case Return(t) => ReturnKeepsInv(config, s, t, Ok(ResponseOf(s.verdicts[t])));
    }
  }

  lemma LaterKeepsBlocked(config: Config, calls: map<CallId, Call>, verdicts: map<CallId, Verdict>, replay: map<string, Time>, now: Time, later: Time)
    requires Blocked(config, calls, verdicts, replay, now) && now <= later
    ensures Blocked(config, calls, verdicts, replay, later)
  {
    hide Admissible, ClaimsMatch, ReplayKey;
  }

  lemma {:induction false} RunKeepsInv(config: Config, run: seq<Step>)
    ensures Inv(config, After(config, run))
  {
    if run != [] {
      RunKeepsInv(config, run[..|run| - 1]);
      ApplyKeepsInv(config, After(config, run[..|run| - 1]), run[|run| - 1]);
    } else {
      assert I.Inv(I.START) by { I.RunKeepsInv([]); }
    }
  }

  // --------------------------------------------------------------- theorems

  /** What a verification vouches for: the agent, active, said this to this Service about
      this operation and resource, and only an authenticate assertion names a resource. */
  predicate Vouches(c: Call, claims: Claims) {
    && c.identity.active
    && claims.issuer == claims.subject == c.identity.agentDID != ""
    && claims.audience == c.request.serviceDID == c.identity.serviceDID
    && claims.operation == c.request.operation && claims.resource == c.request.resource
    && (claims.operation == AUTHENTICATE <==> claims.resource != "")
  }

  /** The assertion could be consumed: it has not expired, and no live record has its key. */
  predicate IsUnused(replay: map<string, Time>, key: string, expiresAt: Time, now: Time) {
    expiresAt != ZERO_TIME && expiresAt > now && (key in replay ==> replay[key] <= now)
  }

  lemma AfterStep(config: Config, run: seq<Step>, step: Step)
    ensures After(config, run + [step]) == Apply(config, After(config, run), step)
  {
    assert (run + [step])[..|run + [step]| - 1] == run;
  }

  lemma ReachesExactly(config: Config, c: Call, allowed: bool, genuine: bool)
    requires Admissible(config, c)
    ensures Reaches(config, c, allowed, genuine) ==
            if allowed && genuine && Vouches(c, ClaimsOf(config, c)) then Some(ClaimsOf(config, c)) else None
  {
    assert c.request.serviceDID != "" && c.request.operation != "" && c.identity.agentDID != "";
    hide IsDID;
  }

  /** Exactly when a check verifies: policy and signature say so, the claims vouch for the
      request, and the assertion is unused; and then it is used. */
  lemma ChecksDecide(config: Config, run: seq<Step>, t: CallId, allowed: bool, genuine: bool)
    requires Executing(After(config, run), t)
    ensures var s, s' := After(config, run), After(config, run + [Check(t, allowed, genuine)]);
            && Admissible(config, s.calls[t])
            && var claims := ClaimsOf(config, s.calls[t]); var key := ReplayKey(s.calls[t], claims);
               var verified := allowed && genuine && Vouches(s.calls[t], claims) && IsUnused(s.replay, key, claims.expiresAt, s.replayClock);
               && (t in s'.verdicts && s'.verdicts[t].Verified? <==> verified)
               && (verified ==> key in s'.replay && s'.replay[key] == claims.expiresAt)
  {
    CallsAreAdmissible(config, run, t);
    AfterStep(config, run, Check(t, allowed, genuine));
    hide After, Admissible, ClaimsOf, Reaches, Vouches, ReplayKey;
    ReachesExactly(config, After(config, run).calls[t], allowed, genuine);
  }

  /** A verdict comes from a check of its call, and later steps leave it alone. */
  lemma {:induction false} VerdictHasACheck(config: Config, run: seq<Step>, t: CallId) returns (n: nat)
    requires t in After(config, run).verdicts
    ensures n < |run| && run[n].Check? && run[n].call == t && Executing(After(config, run[..n]), t)
    ensures var s, s' := After(config, run), After(config, run[..n] + [run[n]]);
            t in s'.verdicts && s'.verdicts[t] == s.verdicts[t]
            && t in s.calls && s.calls[t] == After(config, run[..n]).calls[t]
  {
    var m := |run| - 1;
    assert run[..m] + [run[m]] == run;
    var before := After(config, run[..m]);
    OneVerdictAtATime(config, before, run[m]);
    hide Apply, Executing;
    if t in before.verdicts {
      n := VerdictHasACheck(config, run[..m], t);
      assert run[..m][..n] == run[..n];
    } else {
      n := m;
    }
  }

  lemma OneVerdictAtATime(config: Config, s: State, step: Step)
    ensures var s' := Apply(config, s, step);
            && (forall t :: t in s.calls ==> t in s'.calls && s'.calls[t] == s.calls[t])
            && (forall t :: t in s.verdicts ==> t in s'.verdicts && s'.verdicts[t] == s.verdicts[t])
            && (forall t :: t in s'.verdicts && t !in s.verdicts ==> step.Check? && step.call == t && Executing(s, t))
  {
    hide I.Apply, Reaches, ReplayKey, Consumed, Consumable, Admissible;
  }

  /** Whoever is verified was allowed by the policy and signed by the agent's key, and the
      claims vouch for the request; the assertion was unused when it was checked. */
  lemma VerifiedIsVouchedFor(config: Config, run: seq<Step>, t: CallId) returns (n: nat)
    requires t in After(config, run).verdicts && After(config, run).verdicts[t].Verified?
    ensures n < |run| && run[n] == Check(t, true, true)
    ensures var s := After(config, run);
            && t in s.calls && config.decode(s.calls[t].request.assertion).Some?
            && var claims := config.decode(s.calls[t].request.assertion).value.claims;
               && Vouches(s.calls[t], claims) && config.decode(s.calls[t].request.assertion).value.keyID == claims.issuer
               && var before := After(config, run[..n]);
                  IsUnused(before.replay, ReplayKey(s.calls[t], claims), claims.expiresAt, before.replayClock)
  {
    hide After, Executing, Vouches, IsUnused, ReplayKey, IsDID;
    n := VerdictHasACheck(config, run, t);
    ChecksDecide(config, run[..n], t, run[n].allowed, run[n].genuine);
  }

  /** A request that Verify lets through to the idempotency store. */
  predicate WellAsked(config: Config, c: Call) {
    && c.request.assertion != "" && IsAssertionOperation(c.request.operation) && IsDID(c.request.serviceDID)
    && (c.request.operation == AUTHENTICATE ==> config.isHTTPS(c.request.resource))
    && c.key != "" && c.principal != "" && config.hash(c.request) != ""
  }

  /** Completeness: a genuine assertion that vouches for a new request and is unused is
      verified, if no earlier call under the request's key is in the way. */
  lemma GenuineAssertionsVerify(config: Config, run: seq<Step>, t: CallId, c: Call)
    requires var s := After(config, run);
             && t !in s.calls && WellAsked(config, c)
             && S.StoreKey(Input(config, c)) !in S.Swept(s.idem.table, s.idem.now) && S.StoreKey(Input(config, c)) !in s.idem.flight.pending
             && config.decode(c.request.assertion).Some?
             && var decoded := config.decode(c.request.assertion).value;
                && decoded.keyID == decoded.claims.issuer && Vouches(c, decoded.claims)
                && IsUnused(s.replay, ReplayKey(c, decoded.claims), decoded.claims.expiresAt, s.replayClock)
    ensures var s' := After(config, run + [Invoke(t, c)] + [Idle(I.Look(t))] + [Check(t, true, true)] + [Return(t)]);
            ToldVerified(s', t) && s'.idem.answers[t].Created? && s'.idem.answers[t].response.status == 200
  {
    var asked, looked := run + [Invoke(t, c)], run + [Invoke(t, c)] + [Idle(I.Look(t))];
    var checked := looked + [Check(t, true, true)];
    RunKeepsInv(config, run);
    AfterStep(config, run, Invoke(t, c));
    AfterStep(config, asked, Idle(I.Look(t)));
    AfterStep(config, looked, Check(t, true, true));
    AfterStep(config, checked, Return(t));
    hide After, Apply, Vouches, IsUnused, WellAsked, I.Inv, Inv, Input, Admissible, ToldVerified;
    VouchedIsAdmissible(config, c);
    FreshCallIsNew(config, run, t);
    FreshCallExecutes(config, After(config, run), t, c);
    ChecksDecide(config, looked, t, true, true);
    ChecksKeepTheCall(config, After(config, looked), t);
    ReturningTells(config, After(config, checked), t);
  }

  lemma ChecksKeepTheCall(config: Config, s: State, t: CallId)
    ensures var s' := Apply(config, s, Check(t, true, true)); s'.idem == s.idem && s'.calls == s.calls
  {
    hide Reaches, ReplayKey, Consumed, Consumable;
  }

  lemma VouchedIsAdmissible(config: Config, c: Call)
    requires WellAsked(config, c) && config.decode(c.request.assertion).Some?
    requires var decoded := config.decode(c.request.assertion).value; decoded.keyID == decoded.claims.issuer && Vouches(c, decoded.claims)
    ensures Admissible(config, c)
  {
    hide IsDID, IsAssertionOperation;
  }

  lemma FreshCallExecutes(config: Config, s: State, t: CallId, c: Call)
    requires t !in s.calls && t !in s.verdicts && t !in s.idem.calls && t !in s.idem.flight.phases && Admissible(config, c)
    requires S.StoreKey(Input(config, c)) !in S.Swept(s.idem.table, s.idem.now) && S.StoreKey(Input(config, c)) !in s.idem.flight.pending
    ensures var s' := Apply(config, Apply(config, s, Invoke(t, c)), Idle(I.Look(t)));
            && Executing(s', t) && s'.calls[t] == c && s'.replay == s.replay && s'.replayClock == s.replayClock
            && t in s'.idem.calls && t in s'.idem.started
  {
    AdmissibleInput(config, c);
    hide Admissible, Input, S.ValidInput, S.StoreKey, S.Swept, I.Apply;
    NewInputExecutes(s.idem, t, Input(config, c));
  }

  lemma NewInputExecutes(s: I.State, t: CallId, input: S.Input)
    requires t !in s.calls && t !in s.flight.phases && S.ValidInput(input)
    requires S.StoreKey(input) !in S.Swept(s.table, s.now) && S.StoreKey(input) !in s.flight.pending
    ensures var s' := I.Apply(I.Apply(s, I.Invoke(t, input)), I.Look(t));
            F.IsRunning(s'.flight, t) && t in s'.calls && t in s'.started
  {
    hide S.ValidInput, S.StoreKey, S.Swept;
  }

  lemma FreshCallIsNew(config: Config, run: seq<Step>, t: CallId)
    requires t !in After(config, run).calls
    ensures var s := After(config, run); t !in s.idem.calls && t !in s.idem.flight.phases && t !in s.verdicts
  {
    RunKeepsInv(config, run);
    I.RunningHasStarted(After(config, run).idem);
    hide I.Inv, Blocked, OncePerTicket, Honest, Admissible, After;
    if t in After(config, run).verdicts {
      var n := VerdictHasACheck(config, run, t);
      assert false;
    }
  }

  lemma ReturningTells(config: Config, s: State, t: CallId)
    requires F.IsRunning(s.idem.flight, t) && t in s.idem.calls && t in s.idem.started && t in s.calls
    requires t in s.verdicts && s.verdicts[t].Verified?
    ensures var s' := Apply(config, s, Return(t));
            ToldVerified(s', t) && s'.idem.answers[t].Created? && s'.idem.answers[t].response.status == 200
  {
    I.ReturnIs(s.idem, t, Ok(ResponseOf(Verified)));
    I.ReturnActs(s.idem, t, Ok(ResponseOf(Verified)));
    hide I.Apply, I.ApplyReturn, Admissible;
  }

  /** At most one execution verifies assertions with one ticket, whatever their texts,
      whoever asks, with whatever key, in whatever interleaving. */
  lemma ATicketIsVerifiedOnce(config: Config, run: seq<Step>, t: CallId, u: CallId)
    requires var s := After(config, run);
             && t in s.verdicts && u in s.verdicts && s.verdicts[t].Verified? && s.verdicts[u].Verified?
             && t in s.calls && u in s.calls && SameTicket(config, s.calls[t], s.calls[u])
    ensures t == u
  {
    RunKeepsInv(config, run);
  }

  /** In particular one assertion is verified at most once. */
  lemma AnAssertionIsVerifiedOnce(config: Config, run: seq<Step>, t: CallId, u: CallId)
    requires var s := After(config, run);
             && t in s.verdicts && u in s.verdicts && s.verdicts[t].Verified? && s.verdicts[u].Verified?
             && t in s.calls && u in s.calls && s.calls[t].request.assertion == s.calls[u].request.assertion
    ensures t == u
  {
    RunKeepsInv(config, run);
    AskedIsAdmissible(config, After(config, run), t);
    AskedIsAdmissible(config, After(config, run), u);
    hide Admissible;
    ATicketIsVerifiedOnce(config, run, t, u);
  }

  /** The call was answered "verified". */
  ghost predicate ToldVerified(s: State, t: CallId) {
    && t in s.idem.answers && t in s.calls
    && (s.idem.answers[t].Created? || s.idem.answers[t].Replayed?)
    && s.idem.answers[t].response.body == "verified"
  }

  ghost predicate CollisionFree(config: Config) {
    forall r: Request, q: Request :: config.hash(r) == config.hash(q) ==> r == q
  }

  /** Call `u` executed and verified, and `t` was answered with its stored response. */
  ghost predicate AnsweredBy(s: State, t: CallId, u: CallId) {
    && t in s.calls && t in s.idem.answers && (s.idem.answers[t].Created? || s.idem.answers[t].Replayed?)
    && u in s.verdicts && s.verdicts[u].Verified? && u in s.calls
    && u in s.idem.answers && s.idem.answers[u].Created? && s.idem.answers[u].response == s.idem.answers[t].response
    && s.calls[u].request == s.calls[t].request && s.calls[u].principal == s.calls[t].principal
    && s.calls[u].key == s.calls[t].key
    && (s.idem.answers[t].Created? ==> u == t)
  }

  /** Whose creation a replay shows, in terms of the stored inputs. */
  lemma ReplaySource(s: I.State, t: CallId) returns (u: CallId)
    requires I.Inv(s) && t in s.answers && s.answers[t].Replayed?
    ensures u in s.answers && s.answers[u].Created? && s.answers[u].response == s.answers[t].response
    ensures t in s.calls && u in s.calls && S.Matches(s.calls[u], s.calls[t])
  {
    assert I.ToldRight(s.calls, s.answers, t, s.answers[t]);
    u :| u in s.answers && I.SameKey(s.calls, t, u) && I.Within(s.answers[u], s.answers[t].at) && S.Matches(s.calls[u], s.calls[t]);
  }

  lemma MatchingInputsAreOneRequest(config: Config, c: Call, d: Call)
    requires CollisionFree(config) && Admissible(config, c) && Admissible(config, d)
    requires S.Matches(Input(config, c), Input(config, d))
    ensures c.request == d.request && c.principal == d.principal && c.key == d.key
  {
    assert config.hash(c.request) == config.hash(d.request);
  }

  /** The one execution behind a "verified" answer: the call itself, or the call of
      the same principal, key and request whose stored response was replayed. */
  lemma VerifiedAnswersHaveAnExecution(config: Config, run: seq<Step>, t: CallId) returns (u: CallId)
    requires CollisionFree(config) && ToldVerified(After(config, run), t)
    ensures AnsweredBy(After(config, run), t, u)
  {
    RunKeepsInv(config, run);
    hide I.Inv, Blocked, OncePerTicket, Admissible, CollisionFree, After;
    var s := After(config, run);
    if s.idem.answers[t].Created? {
      u := t;
    } else {
      u := ReplaySource(s.idem, t);
      MatchingInputsAreOneRequest(config, s.calls[u], s.calls[t]);
    }
  }

  /** All "verified" answers for one ticket, and so for one assertion, carry the stored
      response of one and the same execution, over any interleaving. */
  lemma VerifiedAnswersAgree(config: Config, run: seq<Step>, t: CallId, u: CallId)
    requires CollisionFree(config)
    requires ToldVerified(After(config, run), t) && ToldVerified(After(config, run), u)
    requires var s := After(config, run);
             SameTicket(config, s.calls[t], s.calls[u]) || s.calls[t].request.assertion == s.calls[u].request.assertion
    ensures var s := After(config, run);
            && s.idem.answers[t].response == s.idem.answers[u].response
            && s.calls[t].request == s.calls[u].request
            && s.calls[t].principal == s.calls[u].principal && s.calls[t].key == s.calls[u].key
            && (s.idem.answers[t].Created? && s.idem.answers[u].Created? ==> t == u)
  {
    hide CollisionFree, After, SameTicket, Admissible;
    var first := VerifiedAnswersHaveAnExecution(config, run, t);
    var second := VerifiedAnswersHaveAnExecution(config, run, u);
    var s := After(config, run);
    if s.calls[t].request.assertion == s.calls[u].request.assertion {
      AnAssertionIsVerifiedOnce(config, run, first, second);
    } else {
      CallsAreAdmissible(config, run, first);
      CallsAreAdmissible(config, run, second);
      TicketOfTheRequest(config, s.calls[t], s.calls[u], s.calls[first], s.calls[second]);
      ATicketIsVerifiedOnce(config, run, first, second);
    }
  }

  lemma CallsAreAdmissible(config: Config, run: seq<Step>, t: CallId)
    requires t in After(config, run).calls
    ensures Admissible(config, After(config, run).calls[t])
  {
    RunKeepsInv(config, run);
    hide After, Admissible, Blocked, OncePerTicket;
  }

  /** A ticket is a matter of the request and of who is asked about. */
  lemma TicketOfTheRequest(config: Config, c: Call, d: Call, c': Call, d': Call)
    requires SameTicket(config, c, d) && c'.request == c.request && d'.request == d.request
    requires Admissible(config, c') && Admissible(config, d')
    ensures SameTicket(config, c', d')
  {
  }
}
